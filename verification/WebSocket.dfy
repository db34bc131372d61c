/** The byte stream that api/client/alpn_websocket.go:85-157 makes of WebSocket frames (RFC
    6455): data travels in binary frames, pings are answered, a close frame ends the stream
    and all other frames are passed over. */
module WebSocket {

  newtype byte = x: int | 0 <= x < 256

  datatype OpCode = Continuation | Text | Binary | Close | Ping | Pong

  datatype Frame = Frame(op: OpCode, payload: seq<byte>, masked: bool)

  datatype Status = NoError | EOF | ReadFailed | WriteFailed

  /** The frames still to arrive, the bytes held back, the frames written and the number of
      attempts to write one. The connection fails when no frame is left to arrive. */
  datatype Stream = Stream(incoming: seq<Frame>, buffer: seq<byte>, outgoing: seq<Frame>, attempts: nat)

  /** By section 5.1 of RFC 6455 a client masks every frame. */
  function Outgoing(op: OpCode, payload: seq<byte>): Frame { Frame(op, payload, true) }

  /** One frame written, if `writes` lets this attempt succeed. */
  function WriteOnce(s: Stream, f: Frame, writes: nat -> bool): (Stream, Status) {
    if writes(s.attempts)
    then (s.(outgoing := s.outgoing + [f], attempts := s.attempts + 1), NoError)
    else (s.(attempts := s.attempts + 1), WriteFailed)
  }

  function Min(a: nat, b: nat): nat { if a < b then a else b }

  /** One `Read` into a buffer of `size` bytes: the stream afterwards, the bytes returned and
      the error. */
  function ReadOnce(s: Stream, size: nat, writes: nat -> bool): (Stream, seq<byte>, Status)
    decreases |s.incoming|
  {
    if s.buffer != [] then
      var n := Min(size, |s.buffer|);
      (s.(buffer := s.buffer[n..]), s.buffer[..n], NoError)
    else if s.incoming == [] then (s, [], ReadFailed)
    else
      var f, rest := s.incoming[0], s.(incoming := s.incoming[1..]);
      match f.op
      case Close => (rest, [], EOF)
      case Ping =>
        var (answered, status) := WriteOnce(rest, Outgoing(Pong, f.payload), writes);
        if status == NoError then ReadOnce(answered, size, writes) else (answered, [], status)
      case Binary => ReadOnce(rest.(buffer := f.payload), size, writes)
      case _ => ReadOnce(rest, size, writes)
  }

  class Conn {
    var incoming: seq<Frame>
    var readBuffer: seq<byte>
    var outgoing: seq<Frame>
    var attempts: nat
    const writes: nat -> bool

    function View(): Stream
      reads this
    {
      Stream(incoming, readBuffer, outgoing, attempts)
    }

    constructor (incoming: seq<Frame>, writes: nat -> bool)
      ensures View() == Stream(incoming, [], [], 0) && this.writes == writes
    {
      this.incoming, this.readBuffer, this.outgoing, this.attempts, this.writes := incoming, [], [], 0, writes;
    }

    /** The frame is masked as it is written. */
    method WriteFrame(f: Frame) returns (err: Status)
      modifies this`outgoing, this`attempts
      ensures (View(), err) == WriteOnce(old(View()), f.(masked := true), writes)
    {
      attempts := attempts + 1;
      if !writes(attempts - 1) {
        return WriteFailed;
      }
      outgoing := outgoing + [f.(masked := true)];
      return NoError;
    }

    /** The length is reported even when the frame could not be written. */
    method Write(b: array<byte>) returns (n: nat, err: Status)
      modifies this`outgoing, this`attempts
      ensures n == b.Length
      ensures (View(), err) == WriteOnce(old(View()), Outgoing(Binary, b[..]), writes)
    {
      err := WriteFrame(Frame(Binary, b[..], false));
      return b.Length, err;
    }

    /** `readLocked`: serve from the buffer, or read frames until one fills it. The bytes of
        the caller's array behind those returned are not touched. */
    method Read(b: array<byte>) returns (n: nat, err: Status)
      modifies this, b
      ensures var (s, bytes, status) := ReadOnce(old(View()), b.Length, writes);
        View() == s && err == status && n == |bytes| <= b.Length && b[..n] == bytes
      ensures forall i :: n <= i < b.Length ==> b[i] == old(b[i])
      decreases |incoming|
    {
      if |readBuffer| > 0 {
        n := Min(b.Length, |readBuffer|);
        forall i | 0 <= i < n {
          b[i] := readBuffer[i];
        }
        assert b[..n] == readBuffer[..n];
        readBuffer := if n < |readBuffer| then readBuffer[n..] else [];
        return n, NoError;
      }
      while true
        invariant readBuffer == [] && |incoming| <= |old(incoming)|
        invariant ReadOnce(View(), b.Length, writes) == ReadOnce(old(View()), b.Length, writes)
        invariant forall i :: 0 <= i < b.Length ==> b[i] == old(b[i])
        decreases |incoming|
      {
        if incoming == [] {
          return 0, ReadFailed;
        }
        var frame := incoming[0];
        incoming := incoming[1..];
        match frame.op
        case Close => return 0, EOF;
        case Ping =>
          err := WriteFrame(Frame(Pong, frame.payload, false));
          if err != NoError {
            return 0, err;
          }
        case Binary =>
          readBuffer := frame.payload;
          n, err := Read(b);
          return;
        case _ =>
      }
    }
  }

  // ---------- Any series of calls ----------

  datatype Call = Read(size: nat) | Write(chunk: seq<byte>)

  /** `read` are the bytes returned by the reads, `sent` the chunks of the writes that gave no
      error. */
  datatype Trace = Trace(stream: Stream, read: seq<byte>, sent: seq<byte>, statuses: seq<Status>)

  /** The calls one after the other, whatever each returns. */
  function Run(s: Stream, calls: seq<Call>, writes: nat -> bool): Trace {
    if calls == [] then Trace(s, [], [], [])
    else
      var t := Run(s, calls[..|calls| - 1], writes);
      match calls[|calls| - 1]
      case Read(size) =>
        var (s', bytes, status) := ReadOnce(t.stream, size, writes);
        Trace(s', t.read + bytes, t.sent, t.statuses + [status])
      case Write(chunk) =>
        var (s', status) := WriteOnce(t.stream, Outgoing(Binary, chunk), writes);
        Trace(s', t.read, t.sent + (if status == NoError then chunk else []), t.statuses + [status])
  }

  function DataOf(f: Frame): seq<byte> { if f.op == Binary then f.payload else [] }

  function PongOf(f: Frame): seq<Frame> { if f.op == Ping then [Outgoing(Pong, f.payload)] else [] }

  function Payloads(frames: seq<Frame>): seq<byte> {
    if frames == [] then [] else Payloads(frames[..|frames| - 1]) + DataOf(frames[|frames| - 1])
  }

  function Pongs(frames: seq<Frame>): seq<Frame> {
    if frames == [] then [] else Pongs(frames[..|frames| - 1]) + PongOf(frames[|frames| - 1])
  }

  /** The pongs among the frames written. */
  function PongFrames(frames: seq<Frame>): seq<Frame> {
    if frames == [] then []
    else
      var last := frames[|frames| - 1];
      PongFrames(frames[..|frames| - 1]) + if last.op == Pong then [last] else []
  }

  /** What one more frame adds. */
  lemma OneMore(frames: seq<Frame>, f: Frame)
    ensures Payloads(frames + [f]) == Payloads(frames) + DataOf(f)
    ensures PongFrames(frames + [f]) == PongFrames(frames) + if f.op == Pong then [f] else []
  {
    assert (frames + [f])[..|frames|] == frames;
  }

  lemma {:induction false} PayloadsConcat(a: seq<Frame>, b: seq<Frame>)
    ensures Payloads(a + b) == Payloads(a) + Payloads(b)
  {
    if b == [] {
      assert a + b == a;
    } else {
      var init, last := b[..|b| - 1], b[|b| - 1];
      PayloadsConcat(a, init);
      assert (a + b)[..|a + b| - 1] == a + init;
      Assoc(Payloads(a), Payloads(init), DataOf(last));
    }
  }

  lemma {:induction false} PongsConcat(a: seq<Frame>, b: seq<Frame>)
    ensures Pongs(a + b) == Pongs(a) + Pongs(b)
  {
    if b == [] {
      assert a + b == a;
    } else {
      var init, last := b[..|b| - 1], b[|b| - 1];
      PongsConcat(a, init);
      assert (a + b)[..|a + b| - 1] == a + init;
      Assoc(Pongs(a), Pongs(init), PongOf(last));
    }
  }

  lemma Assoc<T>(a: seq<T>, b: seq<T>, c: seq<T>)
    ensures a + b + c == a + (b + c)
  {}

  /** The frames a step from `s` to `t` has consumed. */
  function Consumed(s: Stream, t: Stream): seq<Frame>
    requires |t.incoming| <= |s.incoming|
  {
    s.incoming[..|s.incoming| - |t.incoming|]
  }

  /** Nothing is lost, invented or reordered between two moments of a stream: neither of the
      bytes `read` in between nor of the bytes `sent` nor, if all could be written, of the
      pongs. */
  predicate Conserves(s: Stream, t: Stream, read: seq<byte>, sent: seq<byte>, pongsOk: bool) {
    && |t.incoming| <= |s.incoming|
    && s.incoming == Consumed(s, t) + t.incoming
    && read + t.buffer == s.buffer + Payloads(Consumed(s, t))
    && Payloads(t.outgoing) == Payloads(s.outgoing) + sent
    && (pongsOk ==> PongFrames(t.outgoing) == PongFrames(s.outgoing) + Pongs(Consumed(s, t)))
  }

  lemma Chain(
    a: seq<byte>, b: seq<byte>, held0: seq<byte>, held1: seq<byte>, held2: seq<byte>, p: seq<byte>, q: seq<byte>)
    requires a + held1 == held0 + p && b + held2 == held1 + q
    ensures (a + b) + held2 == held0 + (p + q)
  {
    Assoc(a, b, held2);
    Assoc(a, held1, q);
    Assoc(held0, p, q);
  }

  lemma ConservesSame(s: Stream)
    ensures Conserves(s, s, [], [], true) && Consumed(s, s) == []
  {}

  lemma ConservesTrans(
    s: Stream, t: Stream, u: Stream, readA: seq<byte>, readB: seq<byte>, sentA: seq<byte>, sentB: seq<byte>,
    okA: bool, okB: bool)
    requires Conserves(s, t, readA, sentA, okA) && Conserves(t, u, readB, sentB, okB)
    ensures Conserves(s, u, readA + readB, sentA + sentB, okA && okB)
    ensures Consumed(s, u) == Consumed(s, t) + Consumed(t, u)
  {
    var x, y := Consumed(s, t), Consumed(t, u);
    assert Consumed(s, u) == x + y && s.incoming == (x + y) + u.incoming by {
      Assoc(x, y, u.incoming);
      assert (x + y + u.incoming)[..|x + y|] == x + y;
    }
    PayloadsConcat(x, y);
    PongsConcat(x, y);
    Chain(readA, readB, s.buffer, t.buffer, u.buffer, Payloads(x), Payloads(y));
    Assoc(Payloads(s.outgoing), sentA, sentB);
    Assoc(PongFrames(s.outgoing), Pongs(x), Pongs(y));
  }

  lemma WriteOnceConserves(s: Stream, chunk: seq<byte>, writes: nat -> bool)
    ensures var (t, status) := WriteOnce(s, Outgoing(Binary, chunk), writes);
      Conserves(s, t, [], if status == NoError then chunk else [], true)
  {
    ConservesSame(s);
    OneMore(s.outgoing, Outgoing(Binary, chunk));
  }

  /** The stream after a frame that does not end the read. */
  function AfterFrame(s: Stream): Stream
    requires s.incoming != []
  {
    var f := s.incoming[0];
    Stream(s.incoming[1..], DataOf(f), s.outgoing + PongOf(f), s.attempts + |PongOf(f)|)
  }

  lemma AfterFrameConserves(s: Stream)
    requires s.incoming != [] && s.buffer == []
    ensures Conserves(s, AfterFrame(s), [], [], true) && Consumed(s, AfterFrame(s)) == [s.incoming[0]]
  {
    var f := s.incoming[0];
    assert Consumed(s, AfterFrame(s)) == [f];
    OneMore([], f);
    if f.op == Ping {
      OneMore(s.outgoing, Outgoing(Pong, f.payload));
    } else {
      assert s.outgoing + PongOf(f) == s.outgoing;
    }
  }

  predicate HasClose(frames: seq<Frame>) { exists i :: 0 <= i < |frames| && frames[i].op == Close }

  /** There was something to return, or a close frame came, or the connection has ended, or a
      ping that came last could not be answered: the four statuses tell these apart. */
  predicate StatusExact(s: Stream, t: Stream, status: Status)
    requires |t.incoming| <= |s.incoming|
  {
    var frames := Consumed(s, t);
    && (status == NoError <==> s.buffer != [] || Payloads(frames) != [])
    && (status == EOF <==> HasClose(frames))
    && (status == ReadFailed ==> t.incoming == [])
    && (status == EOF ==> frames[|frames| - 1].op == Close)
    && (status == WriteFailed ==> frames != [] && frames[|frames| - 1].op == Ping)
  }

  lemma PayloadsCons(f: Frame, rest: seq<Frame>)
    ensures Payloads([f] + rest) == DataOf(f) + Payloads(rest)
  {
    PayloadsConcat([f], rest);
    OneMore([], f);
    assert [] + [f] == [f];
  }

  lemma CloseCons(f: Frame, rest: seq<Frame>)
    requires f.op != Close
    ensures HasClose([f] + rest) <==> HasClose(rest)
  {
    if i :| 0 <= i < |rest| && rest[i].op == Close {
      assert ([f] + rest)[i + 1].op == Close;
    }
  }

  lemma LaterStatus(s: Stream, t: Stream, status: Status)
    requires s.incoming != [] && s.buffer == [] && s.incoming[0].op != Close
    requires |t.incoming| < |s.incoming| && StatusExact(AfterFrame(s), t, status)
    ensures StatusExact(s, t, status)
  {
    var f, later := s.incoming[0], Consumed(AfterFrame(s), t);
    assert Consumed(s, t) == [f] + later;
    PayloadsCons(f, later);
    CloseCons(f, later);
  }

  /** What one read promises. */
  predicate GoodRead(s: Stream, size: nat, t: Stream, bytes: seq<byte>, status: Status) {
    && Conserves(s, t, bytes, [], status != WriteFailed)
    && (status != WriteFailed ==> t.outgoing == s.outgoing + Pongs(Consumed(s, t)))
    && |bytes| <= size
    && (status != NoError ==> bytes == [] && t.buffer == [])
    && (status == NoError && size > 0 ==> bytes != [])
    && StatusExact(s, t, status)
  }

  lemma LaterPongs(outgoing: seq<Frame>, f: Frame, rest: seq<Frame>)
    ensures outgoing + PongOf(f) + Pongs(rest) == outgoing + Pongs([f] + rest)
  {
    PongsConcat([f], rest);
    Assoc(outgoing, PongOf(f), Pongs(rest));
  }

  lemma LaterRead(s: Stream, size: nat, t: Stream, bytes: seq<byte>, status: Status)
    requires s.incoming != [] && s.buffer == [] && s.incoming[0].op != Close
    requires GoodRead(AfterFrame(s), size, t, bytes, status)
    ensures GoodRead(s, size, t, bytes, status)
  {
    LaterStatus(s, t, status);
    var a := AfterFrame(s);
    AfterFrameConserves(s);
    ConservesTrans(s, a, t, [], bytes, [], [], true, status != WriteFailed);
    assert [] + bytes == bytes;
    LaterPongs(s.outgoing, s.incoming[0], Consumed(a, t));
  }

  lemma EndingFrame(s: Stream, size: nat, status: Status)
    requires s.incoming != [] && s.buffer == []
    requires (status == EOF && s.incoming[0].op == Close) || (status == WriteFailed && s.incoming[0].op == Ping)
    ensures GoodRead(s, size, s.(incoming := s.incoming[1..]), [], status)
    ensures GoodRead(s, size, s.(incoming := s.incoming[1..], attempts := s.attempts + 1), [], status)
  {}

  lemma BufferedRead(s: Stream, size: nat)
    requires s.buffer != []
    ensures var n := Min(size, |s.buffer|);
      GoodRead(s, size, s.(buffer := s.buffer[n..]), s.buffer[..n], NoError)
  {
    ConservesSame(s);
  }

  lemma ReadPassesFrame(s: Stream, size: nat, writes: nat -> bool)
    requires s.incoming != [] && s.buffer == []
    requires s.incoming[0].op != Close && (s.incoming[0].op == Ping ==> writes(s.attempts))
    ensures ReadOnce(s, size, writes) == ReadOnce(AfterFrame(s), size, writes)
  {
    assert s.incoming[0].op != Ping ==> s.outgoing + PongOf(s.incoming[0]) == s.outgoing;
  }

  lemma {:induction false} ReadOnceConserves(s: Stream, size: nat, writes: nat -> bool)
    ensures var (t, bytes, status) := ReadOnce(s, size, writes); GoodRead(s, size, t, bytes, status)
    decreases |s.incoming|
  {
    if s.buffer != [] {
      BufferedRead(s, size);
    } else if s.incoming == [] {
      ConservesSame(s);
    } else if s.incoming[0].op == Close {
      EndingFrame(s, size, EOF);
    } else if s.incoming[0].op == Ping && !writes(s.attempts) {
      EndingFrame(s, size, WriteFailed);
    } else {
      ReadPassesFrame(s, size, writes);
      ReadOnceConserves(AfterFrame(s), size, writes);
      var (t, bytes, status) := ReadOnce(AfterFrame(s), size, writes);
      LaterRead(s, size, t, bytes, status);
    }
  }

  lemma Same(
    s: Stream, t: Stream, read: seq<byte>, sent: seq<byte>, read': seq<byte>, sent': seq<byte>, ok: bool, ok': bool)
    requires Conserves(s, t, read, sent, ok) && read == read' && sent == sent' && (ok' ==> ok)
    ensures Conserves(s, t, read', sent', ok')
  {}

  lemma OneMoreRead(s: Stream, t: Trace, size: nat, writes: nat -> bool)
    requires Conserves(s, t.stream, t.read, t.sent, WriteFailed !in t.statuses)
    ensures var (u, bytes, status) := ReadOnce(t.stream, size, writes);
      && Conserves(s, u, t.read + bytes, t.sent, WriteFailed !in t.statuses + [status])
      && (status != NoError ==> u.buffer == [])
  {
    ReadOnceConserves(t.stream, size, writes);
    var (u, bytes, status) := ReadOnce(t.stream, size, writes);
    var ok := WriteFailed !in t.statuses;
    ConservesTrans(s, t.stream, u, t.read, bytes, t.sent, [], ok, status != WriteFailed);
    assert WriteFailed !in t.statuses + [status] ==> ok && status != WriteFailed;
    Same(s, u, t.read + bytes, t.sent + [], t.read + bytes, t.sent, ok && status != WriteFailed,
      WriteFailed !in t.statuses + [status]);
  }

  lemma OneMoreWrite(s: Stream, t: Trace, chunk: seq<byte>, writes: nat -> bool)
    requires Conserves(s, t.stream, t.read, t.sent, WriteFailed !in t.statuses)
    ensures var (u, status) := WriteOnce(t.stream, Outgoing(Binary, chunk), writes);
      var sent := if status == NoError then chunk else [];
      Conserves(s, u, t.read, t.sent + sent, WriteFailed !in t.statuses + [status])
  {
    WriteOnceConserves(t.stream, chunk, writes);
    var (u, status) := WriteOnce(t.stream, Outgoing(Binary, chunk), writes);
    var sent := if status == NoError then chunk else [];
    var ok := WriteFailed !in t.statuses;
    ConservesTrans(s, t.stream, u, t.read, [], t.sent, sent, ok, true);
    assert WriteFailed !in t.statuses + [status] ==> ok;
    Same(s, u, t.read + [], t.sent + sent, t.read, t.sent + sent, ok, WriteFailed !in t.statuses + [status]);
  }

  /** For every series of reads and writes, every sequence of arriving frames and every choice
      of writes that fail: the bytes returned so far, followed by the bytes held back, are the
      payloads of the binary frames consumed, in order; the payloads of the frames that went
      out are the chunks written, in order; a read reports an error or an end only with
      nothing held back; and while pongs can be written, they are exactly the consumed pings'
      payloads in order. */
  lemma {:induction false} CallsConserve(s: Stream, calls: seq<Call>, writes: nat -> bool)
    ensures var t := Run(s, calls, writes);
      && Conserves(s, t.stream, t.read, t.sent, WriteFailed !in t.statuses)
      && |t.statuses| == |calls|
      && (calls != [] && calls[|calls| - 1].Read? && t.statuses[|calls| - 1] != NoError ==> t.stream.buffer == [])
  {
    if calls == [] {
      ConservesSame(s);
    } else {
      var init, call := calls[..|calls| - 1], calls[|calls| - 1];
      CallsConserve(s, init, writes);
      var t := Run(s, init, writes);
      match call
      case Read(size) => OneMoreRead(s, t, size, writes);
      case Write(chunk) => OneMoreWrite(s, t, chunk, writes);
    }
  }

  predicate AllMasked(frames: seq<Frame>) { forall i :: 0 <= i < |frames| ==> frames[i].masked }

  lemma {:induction false} ReadOnceMasks(s: Stream, size: nat, writes: nat -> bool)
    requires AllMasked(s.outgoing)
    ensures AllMasked(ReadOnce(s, size, writes).0.outgoing)
    decreases |s.incoming|
  {
    if s.buffer == [] && s.incoming != [] && s.incoming[0].op != Close
      && (s.incoming[0].op == Ping ==> writes(s.attempts)) {
      ReadPassesFrame(s, size, writes);
      ReadOnceMasks(AfterFrame(s), size, writes);
    }
  }

  /** Whatever is called, every frame that goes out is masked. */
  lemma {:induction false} EveryFrameMasked(s: Stream, calls: seq<Call>, writes: nat -> bool)
    requires AllMasked(s.outgoing)
    ensures AllMasked(Run(s, calls, writes).stream.outgoing)
  {
    if calls != [] {
      var init, call := calls[..|calls| - 1], calls[|calls| - 1];
      EveryFrameMasked(s, init, writes);
      if call.Read? {
        ReadOnceMasks(Run(s, init, writes).stream, call.size, writes);
      }
    }
  }

  /** Two ends joined: each end reads and writes as it likes, with pings to answer in between,
      and of the frames that left one end any number has arrived at the other. The bytes read
      there are a prefix of the chunks written here, and all of them once every
      frame has arrived, has been consumed and nothing is held back. */
  lemma BytesArriveInOrder(
    incoming: seq<Frame>, here: seq<Call>, hereWrites: nat -> bool,
    arrived: seq<Frame>, there: seq<Call>, thereWrites: nat -> bool)
    requires arrived <= Run(Stream(incoming, [], [], 0), here, hereWrites).stream.outgoing
    ensures var writer := Run(Stream(incoming, [], [], 0), here, hereWrites);
      var reader := Run(Stream(arrived, [], [], 0), there, thereWrites);
      && reader.read <= writer.sent
      && (arrived == writer.stream.outgoing && reader.stream.incoming == [] && reader.stream.buffer == [] ==>
          reader.read == writer.sent)
  {
    var a, b := Stream(incoming, [], [], 0), Stream(arrived, [], [], 0);
    var writer, reader := Run(a, here, hereWrites), Run(b, there, thereWrites);
    CallsConserve(a, here, hereWrites);
    CallsConserve(b, there, thereWrites);
    var sentFrames, consumed := writer.stream.outgoing, Consumed(b, reader.stream);
    PayloadsConcat(consumed, sentFrames[|consumed|..]);
    assert sentFrames == consumed + sentFrames[|consumed|..];
    assert reader.read + reader.stream.buffer == Payloads(consumed);
    assert writer.sent == Payloads(consumed) + Payloads(sentFrames[|consumed|..]);
    assert reader.read <= reader.read + reader.stream.buffer;
  }
}
