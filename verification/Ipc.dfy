/** Length-prefixed frames between the server (ipc.rs) and a PHP worker (worker.php), under short reads. */
module Ipc {
  import opened Bytes
  import opened Wrappers

  function ToBE(v: nat, n: nat): (s: seq<byte>)
    ensures |s| == n
  {
    if n == 0 then [] else ToBE(v / 256, n - 1) + [v % 256]
  }

  function FromBE(s: seq<byte>): nat {
    if s == [] then 0 else 256 * FromBE(s[..|s| - 1]) + s[|s| - 1]
  }

  lemma {:induction false} FromBEOfToBE(v: nat, n: nat)
    ensures FromBE(ToBE(v, n)) == v % Pow256(n)
  {
    if n > 0 {
      FromBEOfToBE(v / 256, n - 1);
      assert ToBE(v, n)[..n - 1] == ToBE(v / 256, n - 1);
      RemainderOfDigits(v, Pow256(n - 1));
    }
  }

  /** Big-endian: byte k of n has the weight 256^(n-1-k). */
  lemma {:induction false} ByteOfBE(v: nat, n: nat, k: nat)
    requires k < n
    ensures ToBE(v, n)[k] == (v / Pow256(n - 1 - k)) % 256
  {
    if k < n - 1 {
      ByteOfBE(v / 256, n - 1, k);
      DigitOfQuotient(v, Pow256(n - 2 - k));
    }
  }

  /** The length as a u32, high byte first, then the payload: what both sides send. */
  function Frame(payload: seq<byte>): seq<byte> {
    ToBE(|payload|, 4) + payload
  }

  lemma HeaderOfFrame(payload: seq<byte>)
    ensures |Frame(payload)| == 4 + |payload| && Frame(payload)[4..] == payload
    ensures FromBE(Frame(payload)[..4]) == |payload| % TWO_32
  {
    Powers();
    FromBEOfToBE(|payload|, 4);
    assert Frame(payload)[..4] == ToBE(|payload|, 4);
  }

  /** The four bytes of the length as they stand on the wire. */
  lemma FrameBytes(payload: seq<byte>)
    ensures var n := |payload|;
            Frame(payload) == [(n / 0x100_0000) % 256, (n / 0x1_0000) % 256, (n / 0x100) % 256, n % 256] + payload
  {
    Powers();
    ByteOfBE(|payload|, 4, 0);
    ByteOfBE(|payload|, 4, 1);
    ByteOfBE(|payload|, 4, 2);
    ByteOfBE(|payload|, 4, 3);
    hide ToBE;
  }

  const CHUNK: nat := 8192

  function Min(a: nat, b: nat): nat {
    if a <= b then a else b
  }

  /**
   How much the i-th fread yields at most, as the socket has it; zero stands for a read that fails or times
   out. At the end of the stream a read yields nothing.
   */
  type Schedule = nat -> nat

  function Read(incoming: seq<byte>, want: nat, limit: nat): seq<byte> {
    incoming[..Min(want, Min(limit, |incoming|))]
  }

  ghost predicate NoFailures(schedule: Schedule) {
    forall i: nat :: schedule(i) > 0
  }

  /**
   The read loop of worker.php. It never yields a truncated payload, and with no failed reads it succeeds exactly
   when the stream holds the whole payload, however it is chopped up.
   */
  method ReadPayload(incoming: seq<byte>, payloadLength: nat, schedule: Schedule) returns (r: Option<seq<byte>>)
    ensures r.Some? ==> payloadLength <= |incoming| && r.value == incoming[..payloadLength]
    ensures NoFailures(schedule) ==> (r.Some? <==> payloadLength <= |incoming|)
  {
    var payload: seq<byte> := [];
    var bytesRead := 0;
    var readFailed := false;
    var calls := 1;
    while bytesRead < payloadLength && !readFailed
      invariant bytesRead == |payload| <= payloadLength && bytesRead <= |incoming|
      invariant payload == incoming[..bytesRead]
      invariant readFailed && NoFailures(schedule) ==> |incoming| < payloadLength
      decreases payloadLength - bytesRead, !readFailed
    {
      var chunk := Read(incoming[bytesRead..], Min(CHUNK, payloadLength - bytesRead), schedule(calls));
      calls := calls + 1;
      if |chunk| == 0 {
        readFailed := true;
      } else {
        payload := payload + chunk;
        bytesRead := bytesRead + |chunk|;
      }
    }
    if readFailed || bytesRead != payloadLength {
      return None;
    }
    r := Some(payload);
  }

  /**
   One request as the worker receives it: a header delivered in parts is refused, and so is a length over the
   limit.
   */
  method Receive(incoming: seq<byte>, maxPayloadBytes: nat, schedule: Schedule) returns (r: Option<seq<byte>>)
    ensures r.Some? ==> schedule(0) >= 4 && Delivered(incoming, maxPayloadBytes) == r
    ensures NoFailures(schedule) ==>
              r == if schedule(0) >= 4 then Delivered(incoming, maxPayloadBytes) else None
  {
    var lengthHeader := Read(incoming, 4, schedule(0));
    if |lengthHeader| < 4 {
      return None;
    }
    var payloadLength := FromBE(lengthHeader);
    if payloadLength > maxPayloadBytes {
      return None;
    }
    r := ReadPayload(incoming[4..], payloadLength, schedule);
    assert payloadLength <= |incoming| - 4 ==> incoming[4..][..payloadLength] == incoming[4..4 + payloadLength];
  }

  /** What the bytes on the wire say, chopping aside. */
  function Delivered(incoming: seq<byte>, maxPayloadBytes: nat): Option<seq<byte>> {
    if |incoming| < 4 then None
    else
      var length := FromBE(incoming[..4]);
      if length > maxPayloadBytes || |incoming| - 4 < length then None else Some(incoming[4..4 + length])
  }

  /**
   A request with anything behind it, the whole cut off after sent bytes, is received as it was sent exactly when
   nothing of it is cut off and the payload is within the worker's limit and shorter than 2^32 bytes.
   */
  lemma DeliveredExactly(payload: seq<byte>, behind: seq<byte>, sent: nat, maxPayloadBytes: nat)
    requires sent <= |Frame(payload) + behind|
    ensures Delivered((Frame(payload) + behind)[..sent], maxPayloadBytes) == Some(payload) <==>
            sent >= |Frame(payload)| && |payload| <= maxPayloadBytes && |payload| < TWO_32
    ensures |payload| < TWO_32 ==>
              Delivered((Frame(payload) + behind)[..sent], maxPayloadBytes) in {None, Some(payload)}
  {
    hide Frame, FromBE;
    HeaderOfFrame(payload);
    var incoming := (Frame(payload) + behind)[..sent];
    if sent >= 4 {
      assert incoming[..4] == Frame(payload)[..4];
      var length := |payload| % TWO_32;
      if |payload| < TWO_32 {
        RemainderIsUnique(|payload|, TWO_32, 0, |payload|);
        if sent >= |Frame(payload)| {
          assert incoming[4..4 + length] == Frame(payload)[4..];
        }
      } else {
        assert length < |payload|;
      }
    }
  }

  /** The server's read_exact of the header and of the payload; its buffer has no limit of its own. */
  function ReadExact(incoming: seq<byte>, n: nat): Option<(seq<byte>, seq<byte>)> {
    if |incoming| < n then None else Some((incoming[..n], incoming[n..]))
  }

  function ReceiveResponse(incoming: seq<byte>): Option<seq<byte>> {
    match ReadExact(incoming, 4)
    case None => None
    case Some((header, rest)) =>
      match ReadExact(rest, FromBE(header))
      case None => None
      case Some((payload, _)) => Some(payload)
  }

  /** A whole response is received as sent, whatever follows it, exactly when its length fits the header. */
  lemma ResponseRoundTrip(payload: seq<byte>, behind: seq<byte>)
    ensures ReceiveResponse(Frame(payload) + behind) == Some(payload) <==> |payload| < TWO_32
  {
    hide Frame, FromBE;
    HeaderOfFrame(payload);
    var stream := Frame(payload) + behind;
    assert stream[..4] == Frame(payload)[..4] && stream[4..] == payload + behind;
    if |payload| < TWO_32 {
      RemainderIsUnique(|payload|, TWO_32, 0, |payload|);
      assert (payload + behind)[..|payload|] == payload;
    } else {
      assert |payload| % TWO_32 < |payload|;
    }
  }

  /** A response cut off anywhere is not received. */
  lemma CutResponseFails(payload: seq<byte>, sent: nat)
    requires sent < |Frame(payload)| && |payload| < TWO_32
    ensures ReceiveResponse(Frame(payload)[..sent]) == None
  {
    hide Frame, FromBE;
    HeaderOfFrame(payload);
    RemainderIsUnique(|payload|, TWO_32, 0, |payload|);
    if sent >= 4 {
      assert Frame(payload)[..sent][..4] == Frame(payload)[..4];
    }
  }
}
