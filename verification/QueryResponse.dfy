/** The bytes COM_QUERY answers with (db_proxy/mod.rs) and a client that reads them back. */
module QueryResponse {
  import opened Bytes
  import opened Decimal
  import opened LengthEncoding
  import opened Packets
  import opened Wrappers

  /** A value of a backend row; Temporal stands for the kinds the proxy replaces by a question mark. */
  datatype Cell = Null | Bytes(b: text) | Int(i: i64) | UInt(u: u64) | Temporal

  /** Other is a type that neither the code nor this model names, with the code the protocol gives it. */
  datatype ColumnType =
    | Decimal | Timestamp2 | DateTime2 | Time2
    | Tiny | Short | Long | Float | Double | NullType | LongLong | Int24 | Date | NewDate | Time
    | DateTime | Timestamp | Year | VarChar | VarString | Bit | Json | NewDecimal | Enum | Set
    | Blob | TinyBlob | MediumBlob | LongBlob | String | Geometry | Other(code: byte)

  datatype Column = Column(name: text, columnType: ColumnType)

  /** What the connection pool and the backend made of the query. */
  datatype Outcome =
    | NoConnection(message: text)
    | QueryFailed(message: text)
    | Finished(columns: seq<Column>, rows: seq<seq<Cell>>, affectedRows: u64, lastInsertId: u64)

  const QUESTION_MARK: byte := 0x3f

  function MapColumnType(t: ColumnType): byte {
    match t
    case Tiny => 1
    case Short => 2
    case Long => 3
    case Float => 4
    case Double => 5
    case NullType => 6
    case LongLong => 8
    case Int24 => 9
    case Date | NewDate => 10
    case Time => 11
    case DateTime | Timestamp => 12
    case Year => 13
    case VarChar | VarString => 15
    case Bit => 16
    case Json => 245
    case NewDecimal => 246
    case Enum => 247
    case Set => 248
    case Blob | TinyBlob | MediumBlob | LongBlob => 252
    case String => 253
    case Geometry => 255
    case Decimal | Timestamp2 | DateTime2 | Time2 => 253
    case Other(_) => 253
  }

  /** The code of the type in the field type table of the MySQL Client/Server Protocol. */
  function ProtocolCode(t: ColumnType): byte {
    match t
    case Decimal => 0
    case Tiny => 1
    case Short => 2
    case Long => 3
    case Float => 4
    case Double => 5
    case NullType => 6
    case Timestamp => 7
    case LongLong => 8
    case Int24 => 9
    case Date => 10
    case Time => 11
    case DateTime => 12
    case Year => 13
    case NewDate => 14
    case VarChar => 15
    case Bit => 16
    case Timestamp2 => 17
    case DateTime2 => 18
    case Time2 => 19
    case Json => 245
    case NewDecimal => 246
    case Enum => 247
    case Set => 248
    case TinyBlob => 249
    case MediumBlob => 250
    case LongBlob => 251
    case Blob => 252
    case VarString => 253
    case String => 254
    case Geometry => 255
    case Other(code) => code
  }

  /**
   The types reported under another type's code: seven that the code names, and all that it does not name, since
   they are given the code 253.
   */
  lemma ReportedTypeIsExact(t: ColumnType)
    ensures MapColumnType(t) != ProtocolCode(t) <==>
            || t in {Timestamp, NewDate, VarString, String, TinyBlob, MediumBlob, LongBlob}
            || t in {Decimal, Timestamp2, DateTime2, Time2}
            || (t.Other? && t.code != 253)
  {
  }

  /** The type that a client takes a column for. */
  function ReportedAs(t: ColumnType): ColumnType {
    match t
    case Timestamp => DateTime
    case NewDate => Date
    case VarString => VarChar
    case TinyBlob | MediumBlob | LongBlob => Blob
    case String | Decimal | Timestamp2 | DateTime2 | Time2 => VarString
    case Other(_) => VarString
    case _ => t
  }

  lemma ReportedAsSibling(t: ColumnType)
    ensures MapColumnType(t) == ProtocolCode(ReportedAs(t))
  {
  }

  // ----- Payloads -----

  function CellText(c: Cell): Option<text> {
    match c
    case Null => None
    case Bytes(b) => Some(b)
    case Int(i) => Some(IntText(i))
    case UInt(u) => Some(NatText(u))
    case Temporal => Some([QUESTION_MARK])
  }

  function EncodeCell(c: Cell): (s: seq<byte>)
    ensures s != []
  {
    match CellText(c)
    case None => [NULL_MARK]
    case Some(t) => LenencStr(t)
  }

  function RowPayload(cells: seq<Cell>): (s: seq<byte>)
    ensures cells != [] ==> s != []
  {
    if cells == [] then [] else EncodeCell(cells[0]) + RowPayload(cells[1..])
  }

  const DEF: text := [0x64, 0x65, 0x66]
  const GENERAL_STATE: text := [0x48, 0x59, 0x30, 0x30, 0x30]
  const ERROR_CODE: u16 := 1105

  function FixedColumnBytes(t: ColumnType): seq<byte> {
    [0x0c, 0x21, 0x00, 0xff, 0xff, 0xff, 0xff, MapColumnType(t), 0x00, 0x00, 0x00, 0x00, 0x00]
  }

  /** Catalog "def", three empty names, the column name twice, then the fixed part. */
  function ColumnBytes(name: text, fixed: seq<byte>): (s: seq<byte>)
    ensures |name| <= |s|
  {
    LenencStr(DEF) + (LenencStr([]) + (LenencStr([]) + (LenencStr([]) + (LenencStr(name) + (LenencStr(name) + fixed)))))
  }

  function ColumnDefPayload(c: Column): (s: seq<byte>)
    ensures |c.name| <= |s|
  {
    ColumnBytes(c.name, FixedColumnBytes(c.columnType))
  }

  const EOF_PAYLOAD: seq<byte> := [0xfe, 0x00, 0x00, 0x02, 0x00]

  function OkPayload(affectedRows: u64, lastInsertId: u64): seq<byte> {
    [0x00] + (LenencInt(affectedRows) + (LenencInt(lastInsertId) + [0x02, 0x00, 0x00, 0x00]))
  }

  function ErrPayload(code: u16, message: text): seq<byte> {
    [0xff, code % 256, (code / 256) % 256, 0x23] + GENERAL_STATE + message
  }

  // ----- The stream the proxy writes -----

  function ColumnPackets(columns: seq<Column>, seqId: byte): seq<byte> {
    if columns == [] then []
    else Packet(seqId, ColumnDefPayload(columns[0])) + ColumnPackets(columns[1..], NextSeq(seqId))
  }

  function RowPackets(rows: seq<seq<Cell>>, seqId: byte): seq<byte> {
    if rows == [] then []
    else Packet(seqId, RowPayload(rows[0])) + RowPackets(rows[1..], NextSeq(seqId))
  }

  function ResultSetBytes(columns: seq<Column>, rows: seq<seq<Cell>>, seqId: byte): seq<byte> {
    var afterColumns := SeqAfter(NextSeq(seqId), |columns|);
    Packet(seqId, LenencInt(AsU64(|columns|))) +
    (ColumnPackets(columns, NextSeq(seqId)) +
    (Packet(afterColumns, EOF_PAYLOAD) +
    (RowPackets(rows, NextSeq(afterColumns)) +
    Packet(SeqAfter(NextSeq(afterColumns), |rows|), EOF_PAYLOAD))))
  }

  /** The whole answer to a COM_QUERY that carried the sequence id seqId. */
  function Answer(seqId: byte, outcome: Outcome): seq<byte> {
    var first := NextSeq(seqId);
    match outcome
    case NoConnection(message) => Packet(first, ErrPayload(ERROR_CODE, message))
    case QueryFailed(message) => Packet(first, ErrPayload(ERROR_CODE, message))
    case Finished(columns, rows, affectedRows, lastInsertId) =>
      if |columns| > 0 then ResultSetBytes(columns, rows, first)
      else Packet(first, OkPayload(affectedRows, lastInsertId))
  }

  lemma Associate(a: seq<byte>, b: seq<byte>, c: seq<byte>)
    ensures (a + b) + c == a + (b + c)
  {
  }

  lemma RowPayloadStep(cells: seq<Cell>, i: nat)
    requires i < |cells|
    ensures RowPayload(cells[i..]) == EncodeCell(cells[i]) + RowPayload(cells[i + 1..])
  {
    assert cells[i..][1..] == cells[i + 1..];
  }

  method BuildRowPacket(seqId: byte, cells: seq<Cell>) returns (packet: seq<byte>)
    ensures packet == Packet(seqId, RowPayload(cells))
  {
    var payload: seq<byte> := [];
    for i := 0 to |cells|
      invariant RowPayload(cells) == payload + RowPayload(cells[i..])
    {
      RowPayloadStep(cells, i);
      var piece: seq<byte>;
      match cells[i] {
        case Null => piece := [NULL_MARK];
        case Bytes(b) => piece := LenencStr(b);
        case Int(n) => piece := LenencStr(IntText(n));
        case UInt(n) => piece := LenencStr(NatText(n));
        case Temporal => piece := LenencStr([QUESTION_MARK]);
      }
      Associate(payload, piece, RowPayload(cells[i + 1..]));
      payload := payload + piece;
    }
    assert RowPayload(cells[|cells|..]) == [];
    packet := BuildPacket(seqId, payload);
  }

  /** handle_com_query: current_seq advances with every packet written to the socket. */
  method HandleComQuery(seqId: byte, outcome: Outcome) returns (socket: seq<byte>)
    ensures socket == Answer(seqId, outcome)
  {
    match outcome {
      case NoConnection(message) =>
        socket := BuildPacket(NextSeq(seqId), ErrPayload(ERROR_CODE, message));
      case QueryFailed(message) =>
        socket := BuildPacket(NextSeq(seqId), ErrPayload(ERROR_CODE, message));
      case Finished(columns, rows, affectedRows, lastInsertId) =>
        var currentSeq: byte := NextSeq(seqId);
        if |columns| > 0 {
          socket := SendResultSet(columns, rows, currentSeq);
        } else {
          socket := BuildPacket(currentSeq, OkPayload(affectedRows, lastInsertId));
        }
    }
  }

  lemma ColumnPacketsStep(columns: seq<Column>, i: nat, seqId: byte)
    requires i < |columns|
    ensures ColumnPackets(columns[i..], seqId)
            == Packet(seqId, ColumnDefPayload(columns[i])) + ColumnPackets(columns[i + 1..], NextSeq(seqId))
  {
    assert columns[i..][1..] == columns[i + 1..];
  }

  lemma RowPacketsStep(rows: seq<seq<Cell>>, i: nat, seqId: byte)
    requires i < |rows|
    ensures RowPackets(rows[i..], seqId)
            == Packet(seqId, RowPayload(rows[i])) + RowPackets(rows[i + 1..], NextSeq(seqId))
  {
    assert rows[i..][1..] == rows[i + 1..];
  }

  method SendColumns(columns: seq<Column>, first: byte) returns (socket: seq<byte>, currentSeq: byte)
    ensures socket == ColumnPackets(columns, first) && currentSeq == SeqAfter(first, |columns|)
  {
    hide Packet, ColumnDefPayload, NextSeq;
    socket := [];
    currentSeq := first;
    for i := 0 to |columns|
      invariant currentSeq == SeqAfter(first, i)
      invariant ColumnPackets(columns, first) == socket + ColumnPackets(columns[i..], currentSeq)
    {
      ColumnPacketsStep(columns, i, currentSeq);
      var packet := BuildPacket(currentSeq, ColumnDefPayload(columns[i]));
      Associate(socket, packet, ColumnPackets(columns[i + 1..], NextSeq(currentSeq)));
      socket := socket + packet;
      SeqAfterStep(first, i);
      currentSeq := NextSeq(currentSeq);
    }
    assert ColumnPackets(columns[|columns|..], currentSeq) == [];
  }

  method SendRows(rows: seq<seq<Cell>>, first: byte) returns (socket: seq<byte>, currentSeq: byte)
    ensures socket == RowPackets(rows, first) && currentSeq == SeqAfter(first, |rows|)
  {
    hide Packet, RowPayload, NextSeq;
    socket := [];
    currentSeq := first;
    for i := 0 to |rows|
      invariant currentSeq == SeqAfter(first, i)
      invariant RowPackets(rows, first) == socket + RowPackets(rows[i..], currentSeq)
    {
      RowPacketsStep(rows, i, currentSeq);
      var packet := BuildRowPacket(currentSeq, rows[i]);
      Associate(socket, packet, RowPackets(rows[i + 1..], NextSeq(currentSeq)));
      socket := socket + packet;
      SeqAfterStep(first, i);
      currentSeq := NextSeq(currentSeq);
    }
    assert RowPackets(rows[|rows|..], currentSeq) == [];
  }

  method SendResultSet(columns: seq<Column>, rows: seq<seq<Cell>>, first: byte) returns (socket: seq<byte>)
    ensures socket == ResultSetBytes(columns, rows, first)
  {
    var count := BuildPacket(first, LenencInt(AsU64(|columns|)));
    var definitions, currentSeq := SendColumns(columns, NextSeq(first));
    var eof := BuildPacket(currentSeq, EOF_PAYLOAD);
    var body, lastSeq := SendRows(rows, NextSeq(currentSeq));
    var last := BuildPacket(lastSeq, EOF_PAYLOAD);
    socket := count + (definitions + (eof + (body + last)));
  }

  // ----- The client -----

  /** The qualifiers are the catalog, the schema, the table and the original table. */
  datatype ColumnInfo = ColumnInfo(qualifiers: seq<text>, name: text, orgName: text, charset: nat, length: nat,
                                   typeCode: byte, flags: nat, decimals: byte)

  datatype Reply =
    | Err(code: nat, sqlState: text, message: text)
    | Ok(affectedRows: nat, lastInsertId: nat, status: nat, warnings: nat)
    | Table(columns: seq<ColumnInfo>, rows: seq<seq<Option<text>>>)

  function DecodeErr(payload: seq<byte>): Option<Reply> {
    if |payload| < 9 || payload[3] != 0x23 then None
    else Some(Err(FromLE(payload[1..3]), payload[4..9], payload[9..]))
  }

  function DecodeOk(payload: seq<byte>): Option<Reply>
    requires payload != []
  {
    match DecodeInt(payload[1..])
    case None => None
    case Some((affected, rest)) =>
      match DecodeInt(rest)
      case None => None
      case Some((lastId, tail)) =>
        if |tail| < 4 then None else Some(Ok(affected, lastId, FromLE(tail[..2]), FromLE(tail[2..4])))
  }

  function ReadStrs(data: seq<byte>, n: nat): Option<(seq<text>, seq<byte>)> {
    if n == 0 then Some(([], data))
    else match DecodeStr(data)
      case None => None
      case Some((t, rest)) =>
        match ReadStrs(rest, n - 1)
        case None => None
        case Some((ts, tail)) => Some(([t] + ts, tail))
  }

  function ReadFixed(qualifiers: seq<text>, name: text, orgName: text, fixed: seq<byte>): Option<ColumnInfo> {
    if |fixed| != 13 || fixed[0] != 0x0c || fixed[11] != 0 || fixed[12] != 0 then None
    else Some(ColumnInfo(qualifiers, name, orgName, FromLE(fixed[1..3]), FromLE(fixed[3..7]), fixed[7],
                         FromLE(fixed[8..10]), fixed[10]))
  }

  function DecodeColumn(payload: seq<byte>): Option<ColumnInfo> {
    match ReadStrs(payload, 4)
    case None => None
    case Some((qualifiers, names)) =>
      match DecodeStr(names)
      case None => None
      case Some((name, rest)) =>
        match DecodeStr(rest)
        case None => None
        case Some((orgName, fixed)) => ReadFixed(qualifiers, name, orgName, fixed)
  }

  predicate IsEof(payload: seq<byte>) {
    payload != [] && payload[0] == EOF_MARK && |payload| < 9
  }

  /** The warnings and the server status of an EOF packet. */
  function DecodeEof(payload: seq<byte>): Option<(nat, nat)> {
    if IsEof(payload) && |payload| == 5 then Some((FromLE(payload[1..3]), FromLE(payload[3..5]))) else None
  }

  /** The EOF packets tell no warnings and status 2, which is autocommit. */
  lemma EofRoundTrip()
    ensures DecodeEof(EOF_PAYLOAD) == Some((0, 2))
  {
    hide FromLE;
    assert EOF_PAYLOAD[1..3] == [0, 0] && EOF_PAYLOAD[3..5] == [2, 0];
    TwoBytes(0, 0);
    TwoBytes(2, 0);
  }

  /** A row of n values, each NULL or a length-encoded string, with nothing behind the last one. */
  function DecodeRow(payload: seq<byte>, n: nat): Option<seq<Option<text>>> {
    if n == 0 then (if payload == [] then Some([]) else None)
    else if payload == [] then None
    else if payload[0] == NULL_MARK then
      match DecodeRow(payload[1..], n - 1)
      case None => None
      case Some(cells) => Some([None] + cells)
    else
      match DecodeStr(payload)
      case None => None
      case Some((t, rest)) =>
        match DecodeRow(rest, n - 1)
        case None => None
        case Some(cells) => Some([Some(t)] + cells)
  }

  function ReadColumns(stream: seq<byte>, seqId: byte, n: nat): (r: Option<(seq<ColumnInfo>, seq<byte>)>)
    ensures r.Some? ==> |r.value.1| <= |stream|
  {
    if n == 0 then Some(([], stream))
    else match ReadNext(stream, seqId)
      case None => None
      case Some((payload, rest)) =>
        match DecodeColumn(payload)
        case None => None
        case Some(column) =>
          match ReadColumns(rest, NextSeq(seqId), n - 1)
          case None => None
          case Some((columns, tail)) => Some(([column] + columns, tail))
  }

  /** Rows up to the EOF packet; an ERR packet or a row that does not parse ends the reading with None. */
  function ReadRows(stream: seq<byte>, seqId: byte, width: nat): Option<(seq<seq<Option<text>>>, seq<byte>)>
    decreases |stream|
  {
    match ReadNext(stream, seqId)
    case None => None
    case Some((payload, rest)) =>
      if IsEof(payload) then Some(([], rest))
      else if payload != [] && payload[0] == ERR_MARK then None
      else match DecodeRow(payload, width)
        case None => None
        case Some(row) =>
          match ReadRows(rest, NextSeq(seqId), width)
          case None => None
          case Some((rows, tail)) => Some(([row] + rows, tail))
  }

  function ReadTable(stream: seq<byte>, seqId: byte, width: nat): Option<(Reply, seq<byte>)> {
    match ReadColumns(stream, seqId, width)
    case None => None
    case Some((columns, afterColumns)) =>
      var eofId := SeqAfter(seqId, width);
      match ReadNext(afterColumns, eofId)
      case None => None
      case Some((payload, rest)) =>
        if !IsEof(payload) then None
        else match ReadRows(rest, NextSeq(eofId), width)
          case None => None
          case Some((rows, tail)) => Some((Table(columns, rows), tail))
  }

  /** Reads one answer off the stream; the first packet must carry the sequence id after the request's. */
  function ReadAnswer(stream: seq<byte>, seqId: byte): Option<(Reply, seq<byte>)> {
    var first := NextSeq(seqId);
    match ReadNext(stream, first)
    case None => None
    case Some((payload, rest)) =>
      if payload == [] then None
      else if payload[0] == ERR_MARK then
        match DecodeErr(payload)
        case None => None
        case Some(reply) => Some((reply, rest))
      else if payload[0] == 0 then
        match DecodeOk(payload)
        case None => None
        case Some(reply) => Some((reply, rest))
      else match DecodeInt(payload)
        case None => None
        case Some((width, extra)) =>
          if extra != [] then None else ReadTable(rest, NextSeq(first), width)
  }

  // ----- Round trip -----

  /** Every payload fits one packet and every row has a value for each column. */
  predicate Fits(outcome: Outcome) {
    match outcome
    case NoConnection(message) => |ErrPayload(ERROR_CODE, message)| < TWO_24
    case QueryFailed(message) => |ErrPayload(ERROR_CODE, message)| < TWO_24
    case Finished(columns, rows, _, _) =>
      && |columns| < TWO_64
      && (forall c :: c in columns ==> |ColumnDefPayload(c)| < TWO_24)
      && (forall row :: row in rows ==> |row| == |columns| && |RowPayload(row)| < TWO_24)
  }

  const UTF8_GENERAL_CI: nat := 33

  function InfoOf(c: Column): ColumnInfo {
    ColumnInfo([DEF, [], [], []], c.name, c.name, UTF8_GENERAL_CI, TWO_32 - 1, MapColumnType(c.columnType), 0, 0)
  }

  function InfosOf(columns: seq<Column>): seq<ColumnInfo> {
    if columns == [] then [] else [InfoOf(columns[0])] + InfosOf(columns[1..])
  }

  function TextsOf(cells: seq<Cell>): seq<Option<text>> {
    if cells == [] then [] else [CellText(cells[0])] + TextsOf(cells[1..])
  }

  function RowTextsOf(rows: seq<seq<Cell>>): seq<seq<Option<text>>> {
    if rows == [] then [] else [TextsOf(rows[0])] + RowTextsOf(rows[1..])
  }

  /** What a client must learn from the answer. */
  function Meaning(outcome: Outcome): Reply {
    match outcome
    case NoConnection(message) => Err(ERROR_CODE, GENERAL_STATE, message)
    case QueryFailed(message) => Err(ERROR_CODE, GENERAL_STATE, message)
    case Finished(columns, rows, affectedRows, lastInsertId) =>
      if |columns| > 0 then Table(InfosOf(columns), RowTextsOf(rows)) else Ok(affectedRows, lastInsertId, 2, 0)
  }

  // ----- What the client is to learn, without the encoder's words -----

  /** NULL is NULL, a string itself, an integer its decimal text, and a temporal value a question mark. */
  predicate Shows(c: Cell, value: Option<text>) {
    match c
    case Null => value == None
    case Bytes(b) => value == Some(b)
    case Int(i) => value.Some? && IsTextOf(value.value, i)
    case UInt(u) => value.Some? && IsTextOf(value.value, u)
    case Temporal => value == Some([0x3f])
  }

  predicate RowShows(cells: seq<Cell>, values: seq<Option<text>>) {
    |values| == |cells| && forall i :: 0 <= i < |cells| ==> Shows(cells[i], values[i])
  }

  /** Catalog "def", both names, character set 33, length 2^32 - 1, no flags, no decimals, and a type code. */
  predicate ColumnShows(c: Column, info: ColumnInfo) {
    && info.qualifiers == [[0x64, 0x65, 0x66], [], [], []]
    && info.name == c.name && info.orgName == c.name && info.charset == 33 && info.length == 0xffff_ffff
    && info.flags == 0 && info.decimals == 0 && info.typeCode == MapColumnType(c.columnType)
  }

  predicate ColumnsShow(columns: seq<Column>, infos: seq<ColumnInfo>) {
    |infos| == |columns| && forall i :: 0 <= i < |columns| ==> ColumnShows(columns[i], infos[i])
  }

  predicate RowsShow(rows: seq<seq<Cell>>, texts: seq<seq<Option<text>>>) {
    |texts| == |rows| && forall i :: 0 <= i < |rows| ==> RowShows(rows[i], texts[i])
  }

  /** The reply tells the outcome: error 1105 of state HY000, the affected rows and last id, or the whole table. */
  predicate Tells(outcome: Outcome, reply: Reply) {
    match outcome
    case NoConnection(message) => reply == Err(1105, [0x48, 0x59, 0x30, 0x30, 0x30], message)
    case QueryFailed(message) => reply == Err(1105, [0x48, 0x59, 0x30, 0x30, 0x30], message)
    case Finished(columns, rows, affectedRows, lastInsertId) =>
      if columns == [] then reply == Ok(affectedRows, lastInsertId, 2, 0)
      else reply.Table? && ColumnsShow(columns, reply.columns) && RowsShow(rows, reply.rows)
  }

  lemma CellTextShows(c: Cell)
    ensures Shows(c, CellText(c))
  {
    match c
    case Int(i) => IntTextIsTextOf(i);
    case UInt(u) => IntTextIsTextOf(u);
    case _ =>
  }

  lemma {:induction false} TextsShow(cells: seq<Cell>)
    ensures RowShows(cells, TextsOf(cells))
  {
    hide Shows, CellText;
    if cells != [] {
      CellTextShows(cells[0]);
      TextsShow(cells[1..]);
    }
  }

  lemma {:induction false} RowTextsShow(rows: seq<seq<Cell>>)
    ensures RowsShow(rows, RowTextsOf(rows))
  {
    hide RowShows, TextsOf;
    if rows != [] {
      TextsShow(rows[0]);
      RowTextsShow(rows[1..]);
    }
  }

  lemma {:induction false} InfosShow(columns: seq<Column>)
    ensures ColumnsShow(columns, InfosOf(columns))
  {
    if columns != [] {
      InfosShow(columns[1..]);
    }
  }

  lemma MeaningTells(outcome: Outcome)
    ensures Tells(outcome, Meaning(outcome))
  {
    hide ColumnsShow, RowsShow;
    if outcome.Finished? {
      InfosShow(outcome.columns);
      RowTextsShow(outcome.rows);
    }
  }

  /** No row is mistaken for an EOF or ERR packet, and its values come back, NULL apart from any string. */
  lemma {:induction false} RowRoundTrip(cells: seq<Cell>)
    requires |RowPayload(cells)| < TWO_24
    ensures DecodeRow(RowPayload(cells), |cells|) == Some(TextsOf(cells)) && RowShows(cells, TextsOf(cells))
    ensures cells != [] ==> RowPayload(cells)[0] != EOF_MARK && RowPayload(cells)[0] != ERR_MARK
  {
    TextsShow(cells);
    hide RowShows;
    if cells != [] {
      var rest := RowPayload(cells[1..]);
      RowRoundTrip(cells[1..]);
      match CellText(cells[0])
      case None =>
        assert RowPayload(cells)[1..] == rest;
      case Some(t) =>
        FirstByteIsNoMarker(t);
        DecodeStrOfLenencStr(t, rest);
    }
  }

  lemma ReadStrsStep(s: text, rest: seq<byte>, n: nat, ts: seq<text>, tail: seq<byte>)
    requires |s| < TWO_64 && ReadStrs(rest, n) == Some((ts, tail))
    ensures ReadStrs(LenencStr(s) + rest, n + 1) == Some(([s] + ts, tail))
  {
    DecodeStrOfLenencStr(s, rest);
  }

  lemma NoStrs(data: seq<byte>)
    ensures ReadStrs(data, 0) == Some(([], data))
  {
  }

  lemma DecodeColumnOf(payload: seq<byte>, qualifiers: seq<text>, names: seq<byte>, name: text, afterName: seq<byte>,
                       fixed: seq<byte>)
    requires ReadStrs(payload, 4) == Some((qualifiers, names))
    requires DecodeStr(names) == Some((name, afterName)) && DecodeStr(afterName) == Some((name, fixed))
    ensures DecodeColumn(payload) == ReadFixed(qualifiers, name, name, fixed)
  {
  }

  lemma DecodeColumnWith(name: text, fixed: seq<byte>)
    requires |name| < TWO_64
    ensures DecodeColumn(ColumnBytes(name, fixed)) == ReadFixed([DEF, [], [], []], name, name, fixed)
  {
    hide ReadStrs, DecodeStr, LenencStr, DecodeColumn, ReadFixed;
    var afterName := LenencStr(name) + fixed;
    var names := LenencStr(name) + afterName;
    var d3 := LenencStr([]) + names;
    var d2 := LenencStr([]) + d3;
    var d1 := LenencStr([]) + d2;
    var empty: text := [];
    NoStrs(names);
    ReadStrsStep(empty, names, 0, [], names);
    ReadStrsStep(empty, d3, 1, [empty] + [], names);
    ReadStrsStep(empty, d2, 2, [empty] + ([empty] + []), names);
    ReadStrsStep(DEF, d1, 3, [empty] + ([empty] + ([empty] + [])), names);
    assert [DEF] + ([empty] + ([empty] + ([empty] + []))) == [DEF, [], [], []];
    DecodeStrOfLenencStr(name, afterName);
    DecodeStrOfLenencStr(name, fixed);
    DecodeColumnOf(ColumnBytes(name, fixed), [DEF, [], [], []], names, name, afterName, fixed);
  }

  lemma FixedBytesRead(t: ColumnType)
    ensures var fixed := FixedColumnBytes(t);
            && FromLE(fixed[1..3]) == 33 && FromLE(fixed[3..7]) == 0xffff_ffff && fixed[7] == MapColumnType(t)
            && FromLE(fixed[8..10]) == 0 && fixed[10] == fixed[11] == fixed[12] == 0
  {
    hide MapColumnType, FromLE;
    var fixed := FixedColumnBytes(t);
    assert fixed[1..3] == [0x21, 0] && fixed[8..10] == [0, 0];
    assert fixed[3..7] == [0xff, 0xff, 0xff, 0xff];
    TwoBytes(0x21, 0);
    TwoBytes(0, 0);
    FourBytes(0xff, 0xff, 0xff, 0xff);
  }

  lemma ColumnRoundTrip(c: Column)
    requires |ColumnDefPayload(c)| < TWO_24
    ensures DecodeColumn(ColumnDefPayload(c)) == Some(InfoOf(c)) && ColumnShows(c, InfoOf(c))
  {
    hide DecodeColumn, LenencStr, MapColumnType;
    FixedBytesRead(c.columnType);
    DecodeColumnWith(c.name, FixedColumnBytes(c.columnType));
  }

  lemma ReadColumnsStep(stream: seq<byte>, seqId: byte, n: nat, payload: seq<byte>, column: ColumnInfo, tail: seq<byte>)
    requires ReadNext(stream, seqId) == Some((payload, tail)) && DecodeColumn(payload) == Some(column)
    ensures ReadColumns(stream, seqId, n + 1)
            == match ReadColumns(tail, NextSeq(seqId), n)
               case None => None
               case Some((columns, rest)) => Some(([column] + columns, rest))
  {
  }

  lemma ReadRowsStep(stream: seq<byte>, seqId: byte, width: nat, payload: seq<byte>, row: seq<Option<text>>,
                     tail: seq<byte>)
    requires ReadNext(stream, seqId) == Some((payload, tail)) && DecodeRow(payload, width) == Some(row)
    requires payload != [] && payload[0] != EOF_MARK && payload[0] != ERR_MARK
    ensures ReadRows(stream, seqId, width)
            == match ReadRows(tail, NextSeq(seqId), width)
               case None => None
               case Some((rows, rest)) => Some(([row] + rows, rest))
  {
  }

  lemma {:induction false} ColumnsRoundTrip(columns: seq<Column>, seqId: byte, rest: seq<byte>)
    requires forall c :: c in columns ==> |ColumnDefPayload(c)| < TWO_24
    ensures ReadColumns(ColumnPackets(columns, seqId) + rest, seqId, |columns|) == Some((InfosOf(columns), rest))
  {
    if columns == [] {
      assert ColumnPackets(columns, seqId) + rest == rest;
    } else {
      var next := NextSeq(seqId);
      var tail := ColumnPackets(columns[1..], next) + rest;
      var payload := ColumnDefPayload(columns[0]);
      Associate(Packet(seqId, payload), ColumnPackets(columns[1..], next), rest);
      ReadNextOfPacket(seqId, payload, tail);
      ColumnRoundTrip(columns[0]);
      ReadColumnsStep(ColumnPackets(columns, seqId) + rest, seqId, |columns| - 1, payload, InfoOf(columns[0]), tail);
      ColumnsRoundTrip(columns[1..], next, rest);
    }
  }

  /** Row packets closed by an EOF packet, with any bytes behind. */
  function RowsAndEof(rows: seq<seq<Cell>>, seqId: byte, rest: seq<byte>): seq<byte> {
    RowPackets(rows, seqId) + (Packet(SeqAfter(seqId, |rows|), EOF_PAYLOAD) + rest)
  }

  lemma RowsAndEofStep(rows: seq<seq<Cell>>, seqId: byte, rest: seq<byte>)
    ensures rows == [] ==> RowsAndEof(rows, seqId, rest) == Packet(seqId, EOF_PAYLOAD) + rest
    ensures rows != [] ==>
              RowsAndEof(rows, seqId, rest)
              == Packet(seqId, RowPayload(rows[0])) + RowsAndEof(rows[1..], NextSeq(seqId), rest)
  {
    hide Packet, RowPayload, NextSeq;
    if rows != [] {
      Associate(Packet(seqId, RowPayload(rows[0])), RowPackets(rows[1..], NextSeq(seqId)),
                Packet(SeqAfter(seqId, |rows|), EOF_PAYLOAD) + rest);
    }
  }

  lemma ReadRowsEnd(stream: seq<byte>, seqId: byte, width: nat, rest: seq<byte>)
    requires ReadNext(stream, seqId) == Some((EOF_PAYLOAD, rest))
    ensures ReadRows(stream, seqId, width) == Some(([], rest))
  {
  }

  lemma {:induction false} RowsRoundTrip(rows: seq<seq<Cell>>, seqId: byte, width: nat, rest: seq<byte>)
    requires width > 0
    requires forall row :: row in rows ==> |row| == width && |RowPayload(row)| < TWO_24
    ensures ReadRows(RowsAndEof(rows, seqId, rest), seqId, width) == Some((RowTextsOf(rows), rest))
    decreases |rows|
  {
    hide Packet, RowsAndEof;
    var stream := RowsAndEof(rows, seqId, rest);
    RowsAndEofStep(rows, seqId, rest);
    if rows == [] {
      ReadNextOfPacket(seqId, EOF_PAYLOAD, rest);
      ReadRowsEnd(stream, seqId, width, rest);
    } else {
      var tail := RowsAndEof(rows[1..], NextSeq(seqId), rest);
      assert rows[0] in rows;
      ReadNextOfPacket(seqId, RowPayload(rows[0]), tail);
      RowRoundTrip(rows[0]);
      ReadRowsStep(stream, seqId, width, RowPayload(rows[0]), TextsOf(rows[0]), tail);
      RowsRoundTrip(rows[1..], NextSeq(seqId), width, rest);
    }
  }

  /** Everything of a result set behind its column count. */
  function TableBytes(columns: seq<Column>, rows: seq<seq<Cell>>, seqId: byte, rest: seq<byte>): seq<byte> {
    var afterColumns := SeqAfter(seqId, |columns|);
    ColumnPackets(columns, seqId) +
    (Packet(afterColumns, EOF_PAYLOAD) + RowsAndEof(rows, NextSeq(afterColumns), rest))
  }

  lemma TableRoundTrip(columns: seq<Column>, rows: seq<seq<Cell>>, seqId: byte, rest: seq<byte>)
    requires |columns| > 0 && Fits(Finished(columns, rows, 0, 0))
    ensures ReadTable(TableBytes(columns, rows, seqId, rest), seqId, |columns|)
            == Some((Table(InfosOf(columns), RowTextsOf(rows)), rest))
  {
    hide Packet, ReadColumns, ReadRows, ReadNext, RowsAndEof, ColumnPackets, InfosOf, RowTextsOf, RowPayload,
      ColumnDefPayload, SeqAfter, NextSeq;
    var afterColumns := SeqAfter(seqId, |columns|);
    var rowPart := RowsAndEof(rows, NextSeq(afterColumns), rest);
    ColumnsRoundTrip(columns, seqId, Packet(afterColumns, EOF_PAYLOAD) + rowPart);
    ReadNextOfPacket(afterColumns, EOF_PAYLOAD, rowPart);
    RowsRoundTrip(rows, NextSeq(afterColumns), |columns|, rest);
  }

  lemma ResultSetBytesSplit(columns: seq<Column>, rows: seq<seq<Cell>>, seqId: byte, rest: seq<byte>)
    ensures ResultSetBytes(columns, rows, seqId) + rest
            == Packet(seqId, LenencInt(AsU64(|columns|))) + TableBytes(columns, rows, NextSeq(seqId), rest)
  {
    var afterColumns := SeqAfter(NextSeq(seqId), |columns|);
    var count := Packet(seqId, LenencInt(AsU64(|columns|)));
    var definitions := ColumnPackets(columns, NextSeq(seqId));
    var eof := Packet(afterColumns, EOF_PAYLOAD);
    var body := RowPackets(rows, NextSeq(afterColumns));
    var last := Packet(SeqAfter(NextSeq(afterColumns), |rows|), EOF_PAYLOAD);
    AssociateFive(count, definitions, eof, body, last, rest);
  }

  lemma AssociateFive(a: seq<byte>, b: seq<byte>, c: seq<byte>, d: seq<byte>, e: seq<byte>, rest: seq<byte>)
    ensures a + (b + (c + (d + e))) + rest == a + (b + (c + (d + (e + rest))))
  {
  }

  lemma OkRoundTrip(affectedRows: u64, lastInsertId: u64)
    ensures DecodeOk(OkPayload(affectedRows, lastInsertId)) == Some(Ok(affectedRows, lastInsertId, 2, 0))
  {
    var tail: seq<byte> := [0x02, 0x00, 0x00, 0x00];
    DecodeIntOfLenencInt(affectedRows, LenencInt(lastInsertId) + tail);
    DecodeIntOfLenencInt(lastInsertId, tail);
    assert OkPayload(affectedRows, lastInsertId)[1..] == LenencInt(affectedRows) + (LenencInt(lastInsertId) + tail);
    assert tail[..2] == [2, 0] && tail[2..4] == [0, 0];
    TwoBytes(2, 0);
    TwoBytes(0, 0);
  }

  lemma ErrRoundTrip(code: u16, message: text)
    ensures DecodeErr(ErrPayload(code, message)) == Some(Err(code, GENERAL_STATE, message))
  {
    var payload := ErrPayload(code, message);
    assert payload[1..3] == [code % 256, (code / 256) % 256];
    TwoBytes(code % 256, (code / 256) % 256);
    assert payload[4..9] == GENERAL_STATE && payload[9..] == message;
  }

  lemma ErrAnswer(seqId: byte, message: text, rest: seq<byte>)
    requires |ErrPayload(ERROR_CODE, message)| < TWO_24
    ensures ReadAnswer(Packet(NextSeq(seqId), ErrPayload(ERROR_CODE, message)) + rest, seqId)
            == Some((Err(ERROR_CODE, GENERAL_STATE, message), rest))
  {
    ReadNextOfPacket(NextSeq(seqId), ErrPayload(ERROR_CODE, message), rest);
    ErrRoundTrip(ERROR_CODE, message);
  }

  lemma OkAnswer(seqId: byte, affectedRows: u64, lastInsertId: u64, rest: seq<byte>)
    ensures ReadAnswer(Packet(NextSeq(seqId), OkPayload(affectedRows, lastInsertId)) + rest, seqId)
            == Some((Ok(affectedRows, lastInsertId, 2, 0), rest))
  {
    ReadNextOfPacket(NextSeq(seqId), OkPayload(affectedRows, lastInsertId), rest);
    OkRoundTrip(affectedRows, lastInsertId);
  }

  lemma ReadAnswerTable(stream: seq<byte>, seqId: byte, count: seq<byte>, width: nat, tail: seq<byte>)
    requires ReadNext(stream, NextSeq(seqId)) == Some((count, tail))
    requires count != [] && count[0] != ERR_MARK && count[0] != 0 && DecodeInt(count) == Some((width, []))
    ensures ReadAnswer(stream, seqId) == ReadTable(tail, NextSeq(NextSeq(seqId)), width)
  {
  }

  lemma CountRoundTrip(n: u64)
    requires n > 0
    ensures DecodeInt(LenencInt(n)) == Some((n, []))
    ensures LenencInt(n) != [] && LenencInt(n)[0] != ERR_MARK && LenencInt(n)[0] != 0
  {
    DecodeIntOfLenencInt(n, []);
    assert LenencInt(n) + [] == LenencInt(n);
  }

  lemma TableAnswer(seqId: byte, columns: seq<Column>, rows: seq<seq<Cell>>, rest: seq<byte>)
    requires |columns| > 0 && Fits(Finished(columns, rows, 0, 0))
    ensures ReadAnswer(ResultSetBytes(columns, rows, NextSeq(seqId)) + rest, seqId)
            == Some((Table(InfosOf(columns), RowTextsOf(rows)), rest))
  {
    hide ResultSetBytes, TableBytes, ReadAnswer, Packet, LenencInt, NextSeq, ReadNext;
    var first := NextSeq(seqId);
    var tail := TableBytes(columns, rows, NextSeq(first), rest);
    ResultSetBytesSplit(columns, rows, first, rest);
    CountRoundTrip(|columns|);
    ReadNextOfPacket(first, LenencInt(|columns|), tail);
    ReadAnswerTable(ResultSetBytes(columns, rows, first) + rest, seqId, LenencInt(|columns|), |columns|, tail);
    TableRoundTrip(columns, rows, NextSeq(first), rest);
  }

  /** Every answer of the proxy is understood, and nothing behind it is touched. */
  lemma AnswerRoundTrip(seqId: byte, outcome: Outcome, rest: seq<byte>)
    requires Fits(outcome)
    ensures ReadAnswer(Answer(seqId, outcome) + rest, seqId) == Some((Meaning(outcome), rest))
    ensures Tells(outcome, Meaning(outcome))
  {
    MeaningTells(outcome);
    hide Tells;
    match outcome
    case NoConnection(message) => ErrAnswer(seqId, message, rest);
    case QueryFailed(message) => ErrAnswer(seqId, message, rest);
    case Finished(columns, rows, affectedRows, lastInsertId) =>
      if |columns| == 0 {
        OkAnswer(seqId, affectedRows, lastInsertId, rest);
      } else {
        TableAnswer(seqId, columns, rows, rest);
      }
  }

  // ----- A whole connection -----

  /** The bytes of many answers, back to back. */
  function Answers(ids: seq<byte>, outcomes: seq<Outcome>): seq<byte>
    requires |ids| == |outcomes|
  {
    if ids == [] then [] else Answer(ids[0], outcomes[0]) + Answers(ids[1..], outcomes[1..])
  }

  function ReadAnswers(stream: seq<byte>, ids: seq<byte>): Option<seq<Reply>>
    decreases |ids|
  {
    if ids == [] then (if stream == [] then Some([]) else None)
    else match ReadAnswer(stream, ids[0])
      case None => None
      case Some((reply, rest)) =>
        match ReadAnswers(rest, ids[1..])
        case None => None
        case Some(replies) => Some([reply] + replies)
  }

  function MeaningsOf(outcomes: seq<Outcome>): seq<Reply> {
    if outcomes == [] then [] else [Meaning(outcomes[0])] + MeaningsOf(outcomes[1..])
  }

  lemma ReadAnswersStep(stream: seq<byte>, ids: seq<byte>, reply: Reply, rest: seq<byte>, replies: seq<Reply>)
    requires ids != []
    ensures ReadAnswer(stream, ids[0]) == Some((reply, rest)) && ReadAnswers(rest, ids[1..]) == Some(replies) ==>
              ReadAnswers(stream, ids) == Some([reply] + replies)
  {
    hide ReadAnswer;
  }

  /** A connection's whole byte stream has one reading: the answers stay apart without any delimiter. */
  lemma {:induction false} ConnectionRoundTrip(ids: seq<byte>, outcomes: seq<Outcome>)
    requires |ids| == |outcomes|
    requires forall o :: o in outcomes ==> Fits(o)
    ensures ReadAnswers(Answers(ids, outcomes), ids) == Some(MeaningsOf(outcomes))
    ensures |MeaningsOf(outcomes)| == |outcomes|
    ensures forall i :: 0 <= i < |outcomes| ==> Tells(outcomes[i], MeaningsOf(outcomes)[i])
    decreases |ids|
  {
    hide Answer, ReadAnswer, Meaning, Tells, Fits;
    if ids != [] {
      var rest := Answers(ids[1..], outcomes[1..]);
      AnswerRoundTrip(ids[0], outcomes[0], rest);
      ConnectionRoundTrip(ids[1..], outcomes[1..]);
      ReadAnswersStep(Answers(ids, outcomes), ids, Meaning(outcomes[0]), rest, MeaningsOf(outcomes[1..]));
    }
  }

  // ----- Rows too long for a packet -----

  lemma {:induction false} FromLEIsBounded(s: seq<byte>)
    ensures FromLE(s) < Pow256(|s|)
  {
    if s != [] {
      FromLEIsBounded(s[1..]);
    }
  }

  /** The proxy's encoding is the shortest a client accepts. */
  lemma DecodedIntIsNoShorter(data: seq<byte>)
    requires DecodeInt(data).Some?
    ensures var (v, rest) := DecodeInt(data).value; v < TWO_64 && |LenencInt(v)| + |rest| <= |data|
  {
    Powers();
    if data[0] >= 251 {
      var width := if data[0] == 0xfc then 2 else if data[0] == 0xfd then 3 else 8;
      FromLEIsBounded(data[1..1 + width]);
    }
  }

  lemma DecodedStrIsNoShorter(data: seq<byte>)
    requires DecodeStr(data).Some?
    ensures var (t, rest) := DecodeStr(data).value; |t| < TWO_64 && |LenencStr(t)| + |rest| <= |data|
  {
    DecodedIntIsNoShorter(data);
  }

  lemma {:induction false} DecodedRowIsNoShorter(payload: seq<byte>, cells: seq<Cell>)
    requires DecodeRow(payload, |cells|) == Some(TextsOf(cells))
    ensures |RowPayload(cells)| <= |payload|
    decreases |cells|
  {
    hide LenencStr, DecodeStr, CellText;
    if cells != [] {
      assert TextsOf(cells)[0] == CellText(cells[0]) && TextsOf(cells)[1..] == TextsOf(cells[1..]);
      if payload[0] == NULL_MARK {
        var rest := DecodeRow(payload[1..], |cells| - 1).value;
        assert ([None] + rest)[1..] == rest;
        DecodedRowIsNoShorter(payload[1..], cells[1..]);
      } else {
        DecodedStrIsNoShorter(payload);
        var (t, tail) := DecodeStr(payload).value;
        var rest := DecodeRow(tail, |cells| - 1).value;
        assert ([Some(t)] + rest)[1..] == rest;
        DecodedRowIsNoShorter(tail, cells[1..]);
      }
    }
  }

  function ReadRow(stream: seq<byte>, seqId: byte, width: nat): Option<seq<Option<text>>> {
    match ReadNext(stream, seqId)
    case None => None
    case Some((payload, _)) => DecodeRow(payload, width)
  }

  /** A client gets a row back exactly when its payload is shorter than 2^24 bytes, whatever follows it. */
  lemma RowComesBackExactly(cells: seq<Cell>, seqId: byte, rest: seq<byte>)
    ensures ReadRow(Packet(seqId, RowPayload(cells)) + rest, seqId, |cells|) == Some(TextsOf(cells))
            <==> |RowPayload(cells)| < TWO_24
    ensures RowShows(cells, TextsOf(cells))
  {
    TextsShow(cells);
    hide RowShows, DecodeRow, RowPayload, TextsOf, Packet;
    var payload := RowPayload(cells);
    if |payload| < TWO_24 {
      RowRoundTrip(cells);
      ReadNextOfPacket(seqId, payload, rest);
    } else {
      LongPacketIsCut(seqId, payload, rest);
      match ReadNext(Packet(seqId, payload) + rest, seqId)
      case None =>
      case Some((short, _)) =>
        if DecodeRow(short, |cells|) == Some(TextsOf(cells)) {
          DecodedRowIsNoShorter(short, cells);
          assert false;
        }
    }
  }
}
