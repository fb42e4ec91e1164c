// Length-delimited framing over a byte stream (src/libs/ws/transport/framed.rs).
module Framed {
  import opened Wrappers
  import opened Utf8

  type Utf8Bytes = bs: Bytes | IsUtf8(bs) witness []

  type u16 = n: int | 0 <= n < 0x1_0000

  datatype CloseFrame = CloseFrame(code: u16, reason: Utf8Bytes)

  datatype WireMessage =
    | Text(text: Utf8Bytes)
    | Binary(data: Bytes)
    | Ping(data: Bytes)
    | Pong(data: Bytes)
    | Close(frame: Option<CloseFrame>)

  datatype IoError = InvalidData | UnexpectedEof | WriteZero | Stream

  datatype FramedError =
    | Io(error: IoError)
    | UnknownKind(kind: byte)
    | EmptyFrame
    | InvalidUtf8
    | MalformedClose

  type Item = Result<WireMessage, FramedError>

  const KIND_TEXT: byte := 0
  const KIND_BINARY: byte := 1
  const KIND_PING: byte := 2
  const KIND_PONG: byte := 3
  const KIND_CLOSE: byte := 4

  const READ_CHUNK_BYTES: nat := 8 * 1024
  const LENGTH_PREFIX_BYTES: nat := 4

  function Encode(msg: WireMessage): Bytes {
    match msg
    case Text(text) => [KIND_TEXT] + text
    case Binary(data) => [KIND_BINARY] + data
    case Ping(data) => [KIND_PING] + data
    case Pong(data) => [KIND_PONG] + data
    case Close(None) => [KIND_CLOSE]
    case Close(Some(frame)) => [KIND_CLOSE] + [frame.code / 256, frame.code % 256] + frame.reason
  }

  function Decode(body: Bytes): Item {
    if body == [] then Err(EmptyFrame)
    else
      var kind, payload := body[0], body[1..];
      if kind == KIND_TEXT then
        if IsUtf8(payload) then Ok(Text(payload)) else Err(InvalidUtf8)
      else if kind == KIND_BINARY then Ok(Binary(payload))
      else if kind == KIND_PING then Ok(Ping(payload))
      else if kind == KIND_PONG then Ok(Pong(payload))
      else if kind == KIND_CLOSE then
        if payload == [] then Ok(Close(None))
        else if |payload| < 2 then Err(MalformedClose)
        else if !IsUtf8(payload[2..]) then Err(MalformedClose)
        else Ok(Close(Some(CloseFrame(U16(payload[0], payload[1]), payload[2..]))))
      else Err(UnknownKind(kind))
  }

  function U16(high: byte, low: byte): u16 {
    high as int * 256 + low as int
  }

  // What is encoded decodes to itself, and what decodes is the encoding of what it decodes to.
  lemma DecodeEncode(msg: WireMessage)
    ensures Encode(msg) != []
    ensures Decode(Encode(msg)) == Ok(msg)
  {
    if msg.Close? && msg.frame.Some? {
      var f := msg.frame.value;
      var payload := Encode(msg)[1..];
      assert payload == [f.code / 256, f.code % 256] + f.reason;
      assert payload[2..] == f.reason;
    } else if msg.Text? {
      assert Encode(msg)[1..] == msg.text;
    } else if !msg.Close? {
      assert Encode(msg)[1..] == msg.data;
    }
  }

  lemma EncodeDecode(body: Bytes)
    requires Decode(body).Ok?
    ensures Encode(Decode(body).value) == body
  {
    hide U16;
    var payload := body[1..];
    assert body == [body[0]] + payload;
    if body[0] == KIND_CLOSE && payload != [] {
      U16Bytes(payload[0], payload[1]);
      assert payload == [payload[0], payload[1]] + payload[2..];
    }
  }

  lemma U16Bytes(high: byte, low: byte)
    ensures U16(high, low) / 256 == high && U16(high, low) % 256 == low
  {
  }

  // The length prefix: u32, big-endian.

  function U32Bytes(n: int): (bs: Bytes)
    requires 0 <= n < 0x1_0000_0000
    ensures |bs| == LENGTH_PREFIX_BYTES
  {
    [n / 256 / 256 / 256, n / 256 / 256 % 256, n / 256 % 256, n % 256]
  }

  function U32(bs: Bytes): (n: int)
    requires |bs| == LENGTH_PREFIX_BYTES
    ensures 0 <= n < 0x1_0000_0000
  {
    ((bs[0] as int * 256 + bs[1] as int) * 256 + bs[2] as int) * 256 + bs[3] as int
  }

  lemma U32RoundTrip(n: int)
    requires 0 <= n < 0x1_0000_0000
    ensures U32(U32Bytes(n)) == n
  {
  }

  function Frame(body: Bytes): Bytes
    requires |body| < 0x1_0000_0000
  {
    U32Bytes(|body|) + body
  }

  // `take_frame`
  datatype Taken = NotYet | TooLong | Taken(body: Bytes, rest: Bytes)

  function Take(max: nat, buf: Bytes): Taken {
    if |buf| < LENGTH_PREFIX_BYTES then NotYet
    else
      var len := U32(buf[..LENGTH_PREFIX_BYTES]);
      if len > max then TooLong
      else if |buf| < LENGTH_PREFIX_BYTES + len then NotYet
      else Taken.Taken(buf[LENGTH_PREFIX_BYTES..LENGTH_PREFIX_BYTES + len], buf[LENGTH_PREFIX_BYTES + len..])
  }

  // One answer of the stream to `poll_read`, and to `poll_write`: how many bytes of the buffer
  // it took, at most all of them.
  datatype ReadEvent = Data(bytes: Bytes) | Eof | ReadPending | ReadFailed

  datatype WriteEvent = Accept(n: nat) | WritePending | WriteFailed

  datatype Poll<T> = Pending | Ready(value: T)

  // The stream's answer to `poll_flush`, and to `poll_close`.
  datatype SettleEvent = Settled | SettlePending | SettleFailed

  function SettleAnswer(e: SettleEvent): Poll<Result<(), FramedError>> {
    match e
    case Settled => Ready(Ok(()))
    case SettlePending => Pending
    case SettleFailed => Ready(Err(Io(Stream)))
  }

  // A read returns at least one byte, and at most the buffer it was given.
  ghost predicate ReadsFit(incoming: seq<ReadEvent>) {
    forall e :: e in incoming && e.Data? ==> 1 <= |e.bytes| <= READ_CHUNK_BYTES
  }

  datatype Reader = Reader(buf: Bytes, eof: bool)

  datatype Polled = Polled(poll: Poll<Option<Item>>, reader: Reader, incoming: seq<ReadEvent>)

  // `poll_next` against a stream that answers with `incoming` and then stays pending.
  function PollNext(max: nat, r: Reader, incoming: seq<ReadEvent>): Polled
    decreases |incoming|, !r.eof
  {
    match Take(max, r.buf)
    case TooLong => Polled(Ready(Some(Err(Io(InvalidData)))), r, incoming)
    case Taken(body, rest) => Polled(Ready(Some(Decode(body))), r.(buf := rest), incoming)
    case NotYet =>
      if r.eof then Polled(Ready(if r.buf == [] then None else Some(Err(Io(UnexpectedEof)))), r, incoming)
      else if incoming == [] then Polled(Pending, r, [])
      else match incoming[0]
        case Data(bytes) => PollNext(max, r.(buf := r.buf + bytes), incoming[1..])
        case Eof => PollNext(max, r.(eof := true), incoming[1..])
        case ReadPending => Polled(Pending, r, incoming[1..])
        case ReadFailed => Polled(Ready(Some(Err(Io(Stream)))), r, incoming[1..])
  }

  // `start_send`: the frame is queued whole or not at all.
  function QueueFrame(max: nat, writeBuf: Bytes, msg: WireMessage): Result<Bytes, FramedError> {
    var payload := Encode(msg);
    if |payload| > max || |payload| >= 0x1_0000_0000 then Err(Io(InvalidData))
    else Ok(writeBuf + Frame(payload))
  }

  datatype Flushed = Flushed(poll: Poll<Result<(), FramedError>>, wrote: Bytes, writeBuf: Bytes, outgoing: seq<WriteEvent>)

  // `poll_flush` against a stream that answers writes with `outgoing` and then stays pending, and
  // its own flush with `settle`.
  function Flush(writeBuf: Bytes, outgoing: seq<WriteEvent>, settle: SettleEvent): Flushed
    decreases |outgoing|
  {
    if writeBuf == [] then Flushed(SettleAnswer(settle), [], [], outgoing)
    else if outgoing == [] then Flushed(Pending, [], writeBuf, [])
    else match outgoing[0]
      case Accept(n) =>
        if n == 0 then Flushed(Ready(Err(Io(WriteZero))), [], writeBuf, outgoing[1..])
        else
          var k := if n < |writeBuf| then n else |writeBuf|;
          var f := Flush(writeBuf[k..], outgoing[1..], settle);
          f.(wrote := writeBuf[..k] + f.wrote)
      case WritePending => Flushed(Pending, [], writeBuf, outgoing[1..])
      case WriteFailed => Flushed(Ready(Err(Io(Stream))), [], writeBuf, outgoing[1..])
  }

  // The stream underneath, as the answers it will give and the bytes it has been given.
  class ByteStream {
    var incoming: seq<ReadEvent>
    var outgoing: seq<WriteEvent>
    var wire: Bytes
    const onFlush: SettleEvent
    const onClose: SettleEvent

    constructor (incoming: seq<ReadEvent>, outgoing: seq<WriteEvent>, onFlush: SettleEvent, onClose: SettleEvent)
      ensures this.incoming == incoming && this.outgoing == outgoing && wire == []
      ensures this.onFlush == onFlush && this.onClose == onClose
    {
      this.incoming, this.outgoing, wire := incoming, outgoing, [];
      this.onFlush, this.onClose := onFlush, onClose;
    }

    method PollRead() returns (e: ReadEvent)
      modifies this`incoming
      ensures old(incoming) == [] ==> e == ReadPending && incoming == []
      ensures old(incoming) != [] ==> e == old(incoming)[0] && incoming == old(incoming)[1..]
    {
      if incoming == [] {
        e := ReadPending;
      } else {
        e, incoming := incoming[0], incoming[1..];
      }
    }

    method PollWrite(buf: Bytes) returns (e: WriteEvent)
      requires buf != []
      modifies this`outgoing, this`wire
      ensures old(outgoing) == [] ==> e == WritePending && outgoing == []
      ensures old(outgoing) != [] ==> outgoing == old(outgoing)[1..]
      ensures old(outgoing) != [] && !old(outgoing)[0].Accept? ==> e == old(outgoing)[0]
      ensures old(outgoing) != [] && old(outgoing)[0].Accept? ==>
        e == Accept(if old(outgoing)[0].n < |buf| then old(outgoing)[0].n else |buf|)
      ensures wire == if e.Accept? then old(wire) + buf[..e.n] else old(wire)
    {
      if outgoing == [] {
        e := WritePending;
      } else {
        e, outgoing := outgoing[0], outgoing[1..];
        if e.Accept? {
          e := Accept(if e.n < |buf| then e.n else |buf|);
          wire := wire + buf[..e.n];
        }
      }
    }
  }

  class NeutralFramed {
    const io: ByteStream
    const max: nat
    var readBuf: Bytes
    var writeBuf: Bytes
    var readEof: bool
    // The most bytes `readBuf` has held, counting the room made for a read.
    ghost var peak: nat

    constructor (io: ByteStream, max: nat)
      ensures this.io == io && this.max == max
      ensures readBuf == writeBuf == [] && !readEof && peak == 0
    {
      this.io, this.max := io, max;
      readBuf, writeBuf, readEof, peak := [], [], false, 0;
    }

    method TakeFrame() returns (t: Taken)
      modifies this`readBuf
      ensures t == Take(max, old(readBuf))
      ensures readBuf == if t.Taken? then t.rest else old(readBuf)
    {
      if |readBuf| < LENGTH_PREFIX_BYTES {
        return NotYet;
      }
      var len := U32(readBuf[..LENGTH_PREFIX_BYTES]);
      if len > max {
        return TooLong;
      }
      if |readBuf| < LENGTH_PREFIX_BYTES + len {
        return NotYet;
      }
      t := Taken.Taken(readBuf[LENGTH_PREFIX_BYTES..LENGTH_PREFIX_BYTES + len], readBuf[LENGTH_PREFIX_BYTES + len..]);
      readBuf := t.rest;
    }

    // The reads are never asked to hold more than one partial frame and one chunk.
    method Poll() returns (poll: Poll<Option<Item>>)
      requires ReadsFit(io.incoming)
      modifies this`readBuf, this`readEof, this`peak, io`incoming
      ensures Polled(poll, Reader(readBuf, readEof), io.incoming) == PollNext(max, old(Reader(readBuf, readEof)), old(io.incoming))
      ensures peak <= if old(peak) < max + 3 + READ_CHUNK_BYTES then max + 3 + READ_CHUNK_BYTES else old(peak)
    {
      while true
        invariant ReadsFit(io.incoming)
        invariant PollNext(max, old(Reader(readBuf, readEof)), old(io.incoming))
               == PollNext(max, Reader(readBuf, readEof), io.incoming)
        invariant peak <= if old(peak) < max + 3 + READ_CHUNK_BYTES then max + 3 + READ_CHUNK_BYTES else old(peak)
        decreases |io.incoming|, !readEof
      {
        var t := TakeFrame();
        if t.TooLong? {
          return Ready(Some(Err(Io(InvalidData))));
        }
        if t.Taken? {
          return Ready(Some(Decode(t.body)));
        }
        if readEof {
          return Ready(if readBuf == [] then None else Some(Err(Io(UnexpectedEof))));
        }
        var before := |readBuf|;
        assert before <= max + 3;
        readBuf := readBuf + seq(READ_CHUNK_BYTES, _ => 0);
        if peak < |readBuf| {
          peak := |readBuf|;
        }
        var e := io.PollRead();
        readBuf := readBuf[..before];
        match e
        case Data(bytes) => readBuf := readBuf + bytes;
        case Eof => readEof := true;
        case ReadPending => return Pending;
        case ReadFailed => return Ready(Some(Err(Io(Stream))));
      }
    }

    method StartSend(msg: WireMessage) returns (r: Result<(), FramedError>)
      modifies this`writeBuf
      ensures var s := QueueFrame(max, old(writeBuf), msg);
              if s.Ok? then r == Ok(()) && writeBuf == s.value else r == Err(s.error) && writeBuf == old(writeBuf)
    {
      var payload := Encode(msg);
      if |payload| > max {
        return Err(Io(InvalidData));
      }
      if |payload| >= 0x1_0000_0000 {
        return Err(Io(InvalidData));
      }
      writeBuf := writeBuf + U32Bytes(|payload|);
      writeBuf := writeBuf + payload;
      r := Ok(());
      assert writeBuf == old(writeBuf) + Frame(payload);
    }

    method PollFlush() returns (poll: Poll<Result<(), FramedError>>)
      modifies this`writeBuf, io`outgoing, io`wire
      ensures var f := Flush(old(writeBuf), old(io.outgoing), io.onFlush);
              poll == f.poll && writeBuf == f.writeBuf && io.outgoing == f.outgoing && io.wire == old(io.wire) + f.wrote
    {
      hide SettleAnswer;
      ghost var sent: Bytes := [];
      while writeBuf != []
        invariant io.wire == old(io.wire) + sent
        invariant var f, f0 := Flush(writeBuf, io.outgoing, io.onFlush), Flush(old(writeBuf), old(io.outgoing), io.onFlush);
                  f0 == f.(wrote := sent + f.wrote)
        decreases |io.outgoing|
      {
        ghost var rest := if io.outgoing == [] then [] else io.outgoing[1..];
        var before := writeBuf;
        var e := io.PollWrite(writeBuf);
        match e
        case Accept(n) =>
          if n == 0 {
            assert sent + [] == sent;
            return Ready(Err(Io(WriteZero)));
          }
          ghost var f := Flush(before[n..], rest, io.onFlush);
          assert sent + (before[..n] + f.wrote) == (sent + before[..n]) + f.wrote;
          sent := sent + before[..n];
          writeBuf := writeBuf[n..];
        case WritePending =>
          assert sent + [] == sent;
          return Pending;
        case WriteFailed =>
          assert sent + [] == sent;
          return Ready(Err(Io(Stream)));
      }
      assert sent + [] == sent;
      poll := SettleAnswer(io.onFlush);
    }

    method PollClose() returns (poll: Poll<Result<(), FramedError>>)
      modifies this`writeBuf, io`outgoing, io`wire
      ensures var f := Flush(old(writeBuf), old(io.outgoing), io.onFlush);
              && poll == (if f.poll == Ready(Ok(())) then SettleAnswer(io.onClose) else f.poll)
              && writeBuf == f.writeBuf && io.outgoing == f.outgoing && io.wire == old(io.wire) + f.wrote
    {
      poll := PollFlush();
      if poll == Ready(Ok(())) {
        poll := SettleAnswer(io.onClose);
      }
    }

    // A backlog of `max` bytes must drain before the next send, which bounds the buffer.
    method PollReady() returns (poll: Poll<Result<(), FramedError>>)
      modifies this`writeBuf, io`outgoing, io`wire
      ensures poll == Ready(Ok(())) ==> |writeBuf| < max || writeBuf == []
      ensures |old(writeBuf)| < max ==> poll == Ready(Ok(())) && writeBuf == old(writeBuf) && io.wire == old(io.wire)
      ensures |old(writeBuf)| >= max ==>
        var f := Flush(old(writeBuf), old(io.outgoing), io.onFlush);
        poll == f.poll && writeBuf == f.writeBuf && io.wire == old(io.wire) + f.wrote
    {
      if |writeBuf| >= max {
        FlushReadyMeansEmpty(writeBuf, io.outgoing, io.onFlush);
        poll := PollFlush();
      } else {
        poll := Ready(Ok(()));
      }
    }
  }

  // `poll_flush` loses and reorders nothing, and is ready only once everything is written.
  lemma {:induction false} FlushReadyMeansEmpty(writeBuf: Bytes, outgoing: seq<WriteEvent>, settle: SettleEvent)
    ensures var f := Flush(writeBuf, outgoing, settle);
            && f.wrote + f.writeBuf == writeBuf
            && (f.poll == Ready(Ok(())) ==> f.writeBuf == [])
    decreases |outgoing|
  {
    if writeBuf != [] && outgoing != [] && outgoing[0].Accept? && outgoing[0].n > 0 {
      var k := if outgoing[0].n < |writeBuf| then outgoing[0].n else |writeBuf|;
      FlushReadyMeansEmpty(writeBuf[k..], outgoing[1..], settle);
      WroteFirst(writeBuf, k, Flush(writeBuf[k..], outgoing[1..], settle));
    }
    hide SettleAnswer;
  }

  lemma WroteFirst(writeBuf: Bytes, k: nat, f: Flushed)
    requires k <= |writeBuf| && f.wrote + f.writeBuf == writeBuf[k..]
    ensures (writeBuf[..k] + f.wrote) + f.writeBuf == writeBuf
  {
    assert (writeBuf[..k] + f.wrote) + f.writeBuf == writeBuf[..k] + (f.wrote + f.writeBuf);
  }

  // Sending after a ready `poll_ready` keeps the buffer within two frames and a prefix.
  lemma WriteBufBound(max: nat, writeBuf: Bytes, msg: WireMessage)
    requires |writeBuf| < max || writeBuf == []
    requires QueueFrame(max, writeBuf, msg).Ok?
    ensures |QueueFrame(max, writeBuf, msg).value| <= 2 * max + 3
  {
    DecodeEncode(msg);
    assert |Encode(msg)| >= 1;
  }
}
