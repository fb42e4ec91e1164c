// The framing over a lossless byte channel: the incremental reader against a parser of the whole
// byte string, and sender and receiver end to end.
module FramedLink {
  import opened Wrappers
  import opened Utf8
  import opened Framed

  // What a whole byte string comes to: its frames, then an incomplete rest or an oversized prefix.
  datatype Ending = Open(rest: Bytes) | Oversized

  datatype Parsed = Parsed(items: seq<Item>, ending: Ending)

  function Parse(max: nat, bs: Bytes): Parsed
    decreases |bs|
  {
    match Take(max, bs)
    case TooLong => Parsed([], Oversized)
    case NotYet => Parsed([], Open(bs))
    case Taken(body, rest) => After([Decode(body)], Parse(max, rest))
  }

  function After(items: seq<Item>, p: Parsed): Parsed {
    Parsed(items + p.items, p.ending)
  }

  // A frame that is there stays there, and an oversized prefix stays oversized, whatever follows.
  lemma TakeStable(max: nat, buf: Bytes, more: Bytes)
    ensures Take(max, buf).Taken? ==> Take(max, buf + more) == Taken.Taken(Take(max, buf).body, Take(max, buf).rest + more)
    ensures Take(max, buf).TooLong? ==> Take(max, buf + more).TooLong?
  {
    if |buf| >= LENGTH_PREFIX_BYTES {
      assert (buf + more)[..LENGTH_PREFIX_BYTES] == buf[..LENGTH_PREFIX_BYTES];
      var n := LENGTH_PREFIX_BYTES + U32(buf[..LENGTH_PREFIX_BYTES]);
      if n <= |buf| {
        assert (buf + more)[LENGTH_PREFIX_BYTES..n] == buf[LENGTH_PREFIX_BYTES..n];
        assert (buf + more)[n..] == buf[n..] + more;
      }
    }
  }

  // More bytes only ever add items.
  lemma {:induction false} ParseGrows(max: nat, bs: Bytes, more: Bytes)
    ensures Parse(max, bs).items <= Parse(max, bs + more).items
    ensures Parse(max, bs).ending.Oversized? ==> Parse(max, bs + more) == Parse(max, bs)
    decreases |bs|
  {
    TakeStable(max, bs, more);
    if Take(max, bs).Taken? {
      ParseGrows(max, Take(max, bs).rest, more);
    }
  }

  // A receiver with its history: the bytes it has read, and the items that came from frames.
  datatype Receiver = Receiver(reader: Reader, seen: Bytes, delivered: seq<Item>)

  const FreshReceiver := Receiver(Reader([], false), [], [])

  function BytesOf(events: seq<ReadEvent>): Bytes {
    if events == [] then []
    else (if events[0].Data? then events[0].bytes else []) + BytesOf(events[1..])
  }

  // An answer that carries a frame, well formed or not.
  predicate CarriesFrame(poll: Poll<Option<Item>>) {
    poll.Ready? && poll.value.Some? && !(poll.value.value.Err? && poll.value.value.error.Io?)
  }

  function Receive(max: nat, rc: Receiver, incoming: seq<ReadEvent>): (rc': Receiver)
  {
    var p := PollNext(max, rc.reader, incoming);
    PollConsumes(max, rc.reader, incoming);
    Receiver(p.reader, rc.seen + BytesOf(incoming[..|incoming| - |p.incoming|]),
             rc.delivered + if CarriesFrame(p.poll) then [p.poll.value.value] else [])
  }

  // The history explains the buffer: however the bytes go on, parsing all of them is delivering
  // what was delivered and parsing the buffer.
  ghost predicate Explains(max: nat, rc: Receiver) {
    forall more :: Parse(max, rc.seen + more) == After(rc.delivered, Parse(max, rc.reader.buf + more))
  }

  lemma {:induction false} BytesOfAppend(a: seq<ReadEvent>, b: seq<ReadEvent>)
    ensures BytesOf(a + b) == BytesOf(a) + BytesOf(b)
  {
    if a == [] {
      assert a + b == b;
    } else {
      assert (a + b)[1..] == a[1..] + b;
      BytesOfAppend(a[1..], b);
    }
  }

  // What an answer says about `all`, the bytes that were buffered and those the poll read.
  ghost predicate Answers(max: nat, all: Bytes, p: Polled) {
    && (CarriesFrame(p.poll) ==>
          && Take(max, all).Taken? && p.poll.value.value == Decode(Take(max, all).body)
          && p.reader.buf == Take(max, all).rest)
    && (!CarriesFrame(p.poll) ==> p.reader.buf == all)
    && (p.poll.Pending? ==> Take(max, all).NotYet? && !p.reader.eof)
    && (p.poll == Ready(None) ==> p.reader.eof && all == [])
    && (p.poll == Ready(Some(Err(Io(UnexpectedEof)))) ==> p.reader.eof && Take(max, all).NotYet? && all != [])
    && (p.poll == Ready(Some(Err(Io(InvalidData)))) ==> Take(max, all).TooLong?)
  }

  ghost predicate Consumes(max: nat, r: Reader, incoming: seq<ReadEvent>, p: Polled) {
    && |p.incoming| <= |incoming|
    && p.incoming == incoming[|incoming| - |p.incoming|..]
    && Answers(max, r.buf + BytesOf(incoming[..|incoming| - |p.incoming|]), p)
    && (r.eof ==> p.reader.eof && p.incoming == incoming)
  }

  // One poll, in terms of the answers it used up.
  lemma {:induction false} PollConsumes(max: nat, r: Reader, incoming: seq<ReadEvent>)
    ensures Consumes(max, r, incoming, PollNext(max, r, incoming))
    decreases |incoming|, !r.eof
  {
    hide Take, Decode, Consumes;
    if Take(max, r.buf).NotYet? && !r.eof && incoming != [] && (incoming[0].Data? || incoming[0].Eof?) {
      var r' := if incoming[0].Data? then r.(buf := r.buf + incoming[0].bytes) else r.(eof := true);
      PollConsumes(max, r', incoming[1..]);
      ConsumesMore(max, r, r', incoming, PollNext(max, r', incoming[1..]));
    } else {
      PollAtOnce(max, r, incoming);
    }
  }

  lemma PollAtOnce(max: nat, r: Reader, incoming: seq<ReadEvent>)
    requires Take(max, r.buf).NotYet? && !r.eof && incoming != [] ==> incoming[0].ReadPending? || incoming[0].ReadFailed?
    ensures Consumes(max, r, incoming, PollNext(max, r, incoming))
  {
    hide Take, Decode;
    var p := PollNext(max, r, incoming);
    if !Take(max, r.buf).NotYet? || r.eof || incoming == [] {
      assert incoming[..|incoming| - |p.incoming|] == [];
      if Take(max, r.buf).Taken? {
        DecodeNotIo(Take(max, r.buf).body);
      }
    } else {
      assert incoming[..1] == [incoming[0]] && [incoming[0]][1..] == [];
    }
    var used := incoming[..|incoming| - |p.incoming|];
    assert BytesOf(used) == [];
    assert r.buf + BytesOf(used) == r.buf;
  }

  lemma ConsumesMore(max: nat, r: Reader, r': Reader, incoming: seq<ReadEvent>, p: Polled)
    requires incoming != [] && !r.eof && Consumes(max, r', incoming[1..], p)
    requires r'.buf == r.buf + if incoming[0].Data? then incoming[0].bytes else []
    ensures Consumes(max, r, incoming, p)
  {
    hide Answers;
    UsedBytes(incoming, |incoming| - |p.incoming|, r, r');
  }

  lemma UsedBytes(incoming: seq<ReadEvent>, n: nat, r: Reader, r': Reader)
    requires 0 < n <= |incoming|
    requires r'.buf == r.buf + if incoming[0].Data? then incoming[0].bytes else []
    ensures r.buf + BytesOf(incoming[..n]) == r'.buf + BytesOf(incoming[1..][..n - 1])
  {
    var used := incoming[..n];
    assert used[1..] == incoming[1..][..n - 1];
    assert BytesOf(used) == (if used[0].Data? then used[0].bytes else []) + BytesOf(used[1..]);
  }

  lemma DecodeNotIo(body: Bytes)
    ensures Decode(body).Err? ==> !Decode(body).error.Io?
  {
  }

  // A poll keeps the history in step, whatever the chunking.
  lemma ReceiveExplains(max: nat, rc: Receiver, incoming: seq<ReadEvent>)
    requires Explains(max, rc)
    ensures Explains(max, Receive(max, rc, incoming))
  {
    hide Take, Decode, PollNext, Parse, BytesOf;
    var p := PollNext(max, rc.reader, incoming);
    var rc' := Receive(max, rc, incoming);
    PollConsumes(max, rc.reader, incoming);
    var got := BytesOf(incoming[..|incoming| - |p.incoming|]);
    forall more
      ensures Parse(max, rc'.seen + more) == After(rc'.delivered, Parse(max, rc'.reader.buf + more))
    {
      assert rc'.seen + more == rc.seen + (got + more);
      var all := rc.reader.buf + got;
      assert rc.reader.buf + (got + more) == all + more;
      TakeStable(max, all, more);
      if CarriesFrame(p.poll) {
        var item := p.poll.value.value;
        var rest := Parse(max, rc'.reader.buf + more);
        ParseTaken(max, all + more);
        assert Parse(max, all + more) == After([item], rest);
        assert rc.delivered + ([item] + rest.items) == (rc.delivered + [item]) + rest.items;
      }
    }
  }

  lemma ParseTaken(max: nat, bs: Bytes)
    ensures Take(max, bs).Taken? ==> Parse(max, bs) == After([Decode(Take(max, bs).body)], Parse(max, Take(max, bs).rest))
    ensures Take(max, bs).NotYet? ==> Parse(max, bs) == Parsed([], Open(bs))
    ensures Take(max, bs).TooLong? ==> Parse(max, bs) == Parsed([], Oversized)
  {
  }

  // Any number of polls, against any schedule of chunks, pending answers, failures and end.
  function ReceiveAll(max: nat, rc: Receiver, incoming: seq<ReadEvent>, n: nat): (Receiver, seq<ReadEvent>)
    decreases n
  {
    if n == 0 then (rc, incoming)
    else ReceiveAll(max, Receive(max, rc, incoming), PollNext(max, rc.reader, incoming).incoming, n - 1)
  }

  lemma {:induction false} ReceiveAllExplains(max: nat, rc: Receiver, incoming: seq<ReadEvent>, n: nat)
    requires Explains(max, rc)
    ensures Explains(max, ReceiveAll(max, rc, incoming, n).0)
    decreases n
  {
    hide Explains, Receive, PollNext;
    if n > 0 {
      ReceiveExplains(max, rc, incoming);
      ReceiveAllExplains(max, Receive(max, rc, incoming), PollNext(max, rc.reader, incoming).incoming, n - 1);
    }
  }

  // `poll_next` refines the one-shot parser. After any run: what was delivered is what the parser
  // finds first in the bytes read; a pending answer holds no whole frame back; the end is clean
  // only on a frame boundary with everything delivered; and the two errors that are not about a
  // frame body mean what they say about the whole byte string.
  lemma PollRefinesParse(max: nat, incoming: seq<ReadEvent>, n: nat)
    ensures var (rc, later) := ReceiveAll(max, FreshReceiver, incoming, n);
            var p := PollNext(max, rc.reader, later);
            var rc' := Receive(max, rc, later);
            var whole := Parse(max, rc'.seen);
            && rc'.delivered <= whole.items
            && (CarriesFrame(p.poll) ==> |rc'.delivered| == |rc.delivered| + 1 && p.poll.value.value == whole.items[|rc.delivered|])
            && (p.poll.Pending? ==> rc'.delivered == whole.items && whole.ending == Open(rc'.reader.buf))
            && (p.poll == Ready(None) ==> rc'.reader.eof && whole == Parsed(rc'.delivered, Open([])))
            && (p.poll == Ready(Some(Err(Io(UnexpectedEof)))) ==>
                  rc'.reader.eof && rc'.reader.buf != [] && whole == Parsed(rc'.delivered, Open(rc'.reader.buf)))
            && (p.poll == Ready(Some(Err(Io(InvalidData)))) ==> whole == Parsed(rc'.delivered, Oversized))
  {
    assert Explains(max, FreshReceiver) by {
      forall more
        ensures Parse(max, [] + more) == After([], Parse(max, [] + more))
      {
        assert [] + Parse(max, [] + more).items == Parse(max, [] + more).items;
      }
    }
    ReceiveAllExplains(max, FreshReceiver, incoming, n);
    var (rc, later) := ReceiveAll(max, FreshReceiver, incoming, n);
    OnePollRefines(max, rc, later);
  }

  lemma OnePollRefines(max: nat, rc: Receiver, incoming: seq<ReadEvent>)
    requires Explains(max, rc)
    ensures var p := PollNext(max, rc.reader, incoming);
            var rc' := Receive(max, rc, incoming);
            var whole := Parse(max, rc'.seen);
            && whole == After(rc'.delivered, Parse(max, rc'.reader.buf))
            && rc'.delivered <= whole.items
            && (CarriesFrame(p.poll) ==> |rc'.delivered| == |rc.delivered| + 1 && p.poll.value.value == whole.items[|rc.delivered|])
            && (p.poll.Pending? ==> whole == Parsed(rc'.delivered, Open(rc'.reader.buf)))
            && (p.poll == Ready(None) ==> rc'.reader.eof && whole == Parsed(rc'.delivered, Open([])))
            && (p.poll == Ready(Some(Err(Io(UnexpectedEof)))) ==>
                  rc'.reader.eof && rc'.reader.buf != [] && whole == Parsed(rc'.delivered, Open(rc'.reader.buf)))
            && (p.poll == Ready(Some(Err(Io(InvalidData)))) ==> whole == Parsed(rc'.delivered, Oversized))
  {
    var p := PollNext(max, rc.reader, incoming);
    var rc' := Receive(max, rc, incoming);
    PollConsumes(max, rc.reader, incoming);
    ReceiveExplains(max, rc, incoming);
    assert rc'.seen + [] == rc'.seen && rc'.reader.buf + [] == rc'.reader.buf;
    assert Parse(max, rc'.seen + []) == After(rc'.delivered, Parse(max, rc'.reader.buf + []));
    assert rc'.delivered + [] == rc'.delivered;
  }

  // The clean end, the truncated tail and the oversized prefix are permanent answers.
  lemma TerminalAnswersRepeat(max: nat, r: Reader, incoming: seq<ReadEvent>, later: seq<ReadEvent>)
    requires var poll := PollNext(max, r, incoming).poll;
             poll == Ready(None) || poll == Ready(Some(Err(Io(UnexpectedEof)))) || poll == Ready(Some(Err(Io(InvalidData))))
    ensures var p := PollNext(max, r, incoming);
            PollNext(max, p.reader, later) == Polled(p.poll, p.reader, later)
  {
    PollConsumes(max, r, incoming);
  }

  // Sender and receiver.

  function Frames(ms: seq<WireMessage>): Bytes
    requires forall m :: m in ms ==> |Encode(m)| < 0x1_0000_0000
  {
    if ms == [] then [] else Frame(Encode(ms[0])) + Frames(ms[1..])
  }

  ghost predicate Fit(max: nat, ms: seq<WireMessage>) {
    forall m :: m in ms ==> |Encode(m)| <= max && |Encode(m)| < 0x1_0000_0000
  }

  lemma {:induction false} FramesAppend(ms: seq<WireMessage>, m: WireMessage)
    requires forall x :: x in ms + [m] ==> |Encode(x)| < 0x1_0000_0000
    ensures Frames(ms + [m]) == Frames(ms) + Frame(Encode(m))
  {
    assert m in ms + [m];
    if ms == [] {
      assert ms + [m] == [m] && [m][1..] == [];
    } else {
      assert forall x :: x in ms[1..] + [m] ==> x in ms + [m];
      assert ms[0] in ms + [m];
      assert (ms + [m])[1..] == ms[1..] + [m];
      FramesAppend(ms[1..], m);
    }
  }

  lemma TakeFirstFrame(max: nat, ms: seq<WireMessage>)
    requires Fit(max, ms) && ms != []
    ensures Take(max, Frames(ms)) == Taken.Taken(Encode(ms[0]), Frames(ms[1..]))
  {
    hide Take, Encode, Frame;
    TakeOneFrame(max, Encode(ms[0]), Frames(ms[1..]));
  }

  lemma TakeOneFrame(max: nat, body: Bytes, rest: Bytes)
    requires |body| <= max && |body| < 0x1_0000_0000
    ensures Take(max, Frame(body) + rest) == Taken.Taken(body, rest)
  {
    hide U32, U32Bytes;
    var all := Frame(body) + rest;
    U32RoundTrip(|body|);
    assert all[..LENGTH_PREFIX_BYTES] == U32Bytes(|body|);
    assert all[LENGTH_PREFIX_BYTES..LENGTH_PREFIX_BYTES + |body|] == body;
    assert all[LENGTH_PREFIX_BYTES + |body|..] == rest;
  }

  function Oks(ms: seq<WireMessage>): seq<Item> {
    seq(|ms|, i requires 0 <= i < |ms| => Ok(ms[i]))
  }

  lemma {:induction false} ParseFrames(max: nat, ms: seq<WireMessage>)
    requires Fit(max, ms)
    ensures Parse(max, Frames(ms)) == Parsed(Oks(ms), Open([]))
  {
    if ms != [] {
      hide Take, Decode, Encode, Frames, Oks;
      TakeFirstFrame(max, ms);
      ParseFrames(max, ms[1..]);
      DecodeEncode(ms[0]);
      OksFront(ms);
    }
  }

  lemma OksFront(ms: seq<WireMessage>)
    requires ms != []
    ensures Oks(ms) == [Ok(ms[0])] + Oks(ms[1..])
  {
  }

  // One direction of a connection: what `start_send` accepted, what is buffered, what is on the
  // wire, and the receiver at the other end.
  datatype Link = Link(
    sendMax: nat,
    recvMax: nat,
    accepted: seq<WireMessage>,
    writeBuf: Bytes,
    wire: Bytes,
    closed: bool,
    rc: Receiver)

  datatype Action =
    | Send(msg: WireMessage)
    | FlushTo(outgoing: seq<WriteEvent>, settle: SettleEvent)
    | CloseTo(outgoing: seq<WriteEvent>, settle: SettleEvent, shut: SettleEvent)
    | PollWith(incoming: seq<ReadEvent>)

  function NewLink(sendMax: nat, recvMax: nat): Link {
    Link(sendMax, recvMax, [], [], [], false, FreshReceiver)
  }

  // The channel loses nothing: reads return the bytes of the wire in order, and end of file is
  // answered only once the writer has closed and every byte has been read.
  ghost predicate Faithful(l: Link, incoming: seq<ReadEvent>) {
    && |l.rc.seen| <= |l.wire|
    && BytesOf(incoming) <= l.wire[|l.rc.seen|..]
    && forall i :: 0 <= i < |incoming| && incoming[i].Eof? ==>
         l.closed && l.rc.seen + BytesOf(incoming[..i]) == l.wire
  }

  // Nothing is sent or flushed after a close.
  ghost predicate Enabled(l: Link, a: Action) {
    match a
    case PollWith(incoming) => Faithful(l, incoming)
    case _ => !l.closed
  }

  function Next(l: Link, a: Action): Link {
    match a
    case Send(msg) =>
      var q := QueueFrame(l.sendMax, l.writeBuf, msg);
      if q.Ok? then l.(accepted := l.accepted + [msg], writeBuf := q.value) else l
    case FlushTo(outgoing, settle) =>
      var f := Flush(l.writeBuf, outgoing, settle);
      l.(writeBuf := f.writeBuf, wire := l.wire + f.wrote)
    case CloseTo(outgoing, settle, shut) =>
      var f := Flush(l.writeBuf, outgoing, settle);
      l.(writeBuf := f.writeBuf, wire := l.wire + f.wrote, closed := f.poll == Ready(Ok(())) && shut.Settled?)
    case PollWith(incoming) => l.(rc := Receive(l.recvMax, l.rc, incoming))
  }

  ghost predicate Inv(l: Link) {
    && l.sendMax <= l.recvMax
    && Fit(l.sendMax, l.accepted)
    && l.wire + l.writeBuf == Frames(l.accepted)
    && l.rc.seen <= l.wire
    && Explains(l.recvMax, l.rc)
    && (l.closed ==> l.writeBuf == [])
    && (l.rc.reader.eof ==> l.closed && l.rc.seen == l.wire)
  }

  lemma NextKeepsInv(l: Link, a: Action)
    requires Inv(l) && Enabled(l, a)
    ensures Inv(Next(l, a))
  {
    hide Explains, Frames, Encode, Flush, Receive, BytesOf, Faithful, U32Bytes, Frame;
    match a
    case Send(msg) =>
      if QueueFrame(l.sendMax, l.writeBuf, msg).Ok? {
        assert Fit(l.sendMax, l.accepted + [msg]);
        FramesAppend(l.accepted, msg);
        assert l.wire + (l.writeBuf + Frame(Encode(msg))) == (l.wire + l.writeBuf) + Frame(Encode(msg));
      }
    case FlushTo(outgoing, settle) => FlushKeeps(l, outgoing, settle);
    case CloseTo(outgoing, settle, _) => FlushKeeps(l, outgoing, settle);
    case PollWith(incoming) => PollKeeps(l, incoming);
  }

  lemma FlushKeeps(l: Link, outgoing: seq<WriteEvent>, settle: SettleEvent)
    requires Inv(l)
    ensures var f := Flush(l.writeBuf, outgoing, settle);
            && (l.wire + f.wrote) + f.writeBuf == Frames(l.accepted)
            && l.rc.seen <= l.wire + f.wrote
            && (f.poll == Ready(Ok(())) ==> f.writeBuf == [])
  {
    hide Flush, Frames, Encode, Explains;
    FlushReadyMeansEmpty(l.writeBuf, outgoing, settle);
    var f := Flush(l.writeBuf, outgoing, settle);
    assert (l.wire + f.wrote) + f.writeBuf == l.wire + (f.wrote + f.writeBuf);
  }

  lemma PollKeeps(l: Link, incoming: seq<ReadEvent>)
    requires Inv(l) && Faithful(l, incoming)
    ensures Inv(l.(rc := Receive(l.recvMax, l.rc, incoming)))
  {
    hide Explains, Frames, Encode, PollNext, Answers, CarriesFrame, Fit;
    ReceiveExplains(l.recvMax, l.rc, incoming);
    PollConsumes(l.recvMax, l.rc.reader, incoming);
    var p := PollNext(l.recvMax, l.rc.reader, incoming);
    var n := |incoming| - |p.incoming|;
    assert incoming == incoming[..n] + incoming[n..];
    BytesOfAppend(incoming[..n], incoming[n..]);
    EofSeen(l.recvMax, l.rc.reader, incoming);
    if p.reader.eof && !l.rc.reader.eof {
      var i :| 0 <= i < n && incoming[i].Eof?;
      EndReached(l, incoming, i, n);
    }
  }

  lemma EndReached(l: Link, incoming: seq<ReadEvent>, i: nat, n: nat)
    requires l.rc.seen <= l.wire && Faithful(l, incoming)
    requires i < n <= |incoming| && incoming[i].Eof?
    ensures l.closed && l.rc.seen + BytesOf(incoming[..n]) == l.wire
  {
    assert incoming[..n] == incoming[..i] + incoming[i..n];
    BytesOfAppend(incoming[..i], incoming[i..n]);
    assert incoming == incoming[..n] + incoming[n..];
    BytesOfAppend(incoming[..n], incoming[n..]);
  }

  // The reader learns of the end only from an end-of-file answer.
  lemma {:induction false} EofSeen(max: nat, r: Reader, incoming: seq<ReadEvent>)
    ensures var p := PollNext(max, r, incoming);
            && |p.incoming| <= |incoming|
            && (p.reader.eof && !r.eof ==> exists i :: 0 <= i < |incoming| - |p.incoming| && incoming[i].Eof?)
    decreases |incoming|, !r.eof
  {
    PollConsumes(max, r, incoming);
    if Take(max, r.buf).NotYet? && !r.eof && incoming != [] && incoming[0].Data? {
      var r' := r.(buf := r.buf + incoming[0].bytes);
      EofSeen(max, r', incoming[1..]);
      var p := PollNext(max, r', incoming[1..]);
      if p.reader.eof {
        var i :| 0 <= i < |incoming[1..]| - |p.incoming| && incoming[1..][i].Eof?;
        assert incoming[i + 1].Eof?;
      }
    } else if Take(max, r.buf).NotYet? && !r.eof && incoming != [] && incoming[0].Eof? {
      PollConsumes(max, r.(eof := true), incoming[1..]);
      assert incoming[0].Eof?;
    }
  }

  // Every run from a fresh link.
  ghost predicate IsRun(run: seq<Link>, actions: seq<Action>) {
    && |run| == |actions| + 1
    && run[0] == NewLink(run[0].sendMax, run[0].recvMax) && run[0].sendMax <= run[0].recvMax
    && forall i :: 0 <= i < |actions| ==> Enabled(run[i], actions[i]) && run[i + 1] == Next(run[i], actions[i])
  }

  lemma {:induction false} RunInv(run: seq<Link>, actions: seq<Action>, i: nat)
    requires IsRun(run, actions) && i < |run|
    ensures Inv(run[i])
  {
    if i == 0 {
      forall more
        ensures Parse(run[0].recvMax, [] + more) == After([], Parse(run[0].recvMax, [] + more))
      {
        assert [] + Parse(run[0].recvMax, [] + more).items == Parse(run[0].recvMax, [] + more).items;
      }
    } else {
      RunInv(run, actions, i - 1);
      NextKeepsInv(run[i - 1], actions[i - 1]);
    }
  }

  // Safety, at every point of every run: bytes written and bytes buffered are the frames of what
  // was accepted, and what was received is an in-order prefix of it.
  lemma ReceivedIsPrefix(run: seq<Link>, actions: seq<Action>, i: nat)
    requires IsRun(run, actions) && i < |run|
    ensures Fit(run[i].sendMax, run[i].accepted)
    ensures run[i].wire + run[i].writeBuf == Frames(run[i].accepted)
    ensures run[i].rc.delivered <= Oks(run[i].accepted)
  {
    RunInv(run, actions, i);
    InvMeansPrefix(run[i]);
  }

  lemma InvMeansPrefix(l: Link)
    requires Inv(l)
    ensures l.rc.delivered <= Oks(l.accepted)
  {
    hide Frames, Explains, Parse, Oks;
    ParseFrames(l.recvMax, l.accepted);
    ExplainedPrefix(l.recvMax, l.rc);
    var more := l.wire[|l.rc.seen|..] + l.writeBuf;
    assert l.rc.seen + more == l.wire + l.writeBuf;
    ParseGrows(l.recvMax, l.rc.seen, more);
  }

  lemma ExplainedPrefix(max: nat, rc: Receiver)
    requires Explains(max, rc)
    ensures rc.delivered <= Parse(max, rc.seen).items
  {
    hide Parse;
    assert rc.seen + [] == rc.seen;
    assert Parse(max, rc.seen + []) == After(rc.delivered, Parse(max, rc.reader.buf + []));
  }

  // What every answer of every poll means, at every point of every run over a lossless channel: a
  // clean end says that the writer has closed and that everything accepted has been received, and
  // an error is only ever one the byte stream itself answered with.
  lemma AnswersTellTheTruth(run: seq<Link>, actions: seq<Action>, i: nat)
    requires IsRun(run, actions) && i < |actions| && actions[i].PollWith?
    ensures var p := PollNext(run[i].recvMax, run[i].rc.reader, actions[i].incoming);
      && (p.poll == Ready(None) ==> run[i].closed && run[i + 1].rc.delivered == Oks(run[i].accepted))
      && (IsError(p.poll) ==> p.poll == Ready(Some(Err(Io(Stream)))) && exists e :: e in actions[i].incoming && e.ReadFailed?)
  {
    RunInv(run, actions, i);
    hide Inv, PollNext;
    if PollNext(run[i].recvMax, run[i].rc.reader, actions[i].incoming).poll == Ready(None) {
      CleanEndMeansAll(run[i], actions[i].incoming);
    }
    ErrorsAreTheStreams(run[i], actions[i].incoming);
  }

  predicate IsError(poll: Poll<Option<Item>>) {
    poll.Ready? && poll.value.Some? && poll.value.value.Err?
  }

  lemma CleanEndMeansAll(l: Link, incoming: seq<ReadEvent>)
    requires Inv(l) && Faithful(l, incoming) && PollNext(l.recvMax, l.rc.reader, incoming).poll == Ready(None)
    ensures l.closed && Receive(l.recvMax, l.rc, incoming).delivered == Oks(l.accepted)
  {
    hide PollNext, Receive, Faithful, Frames, Parse, Oks;
    NextKeepsInv(l, PollWith(incoming));
    OnePollRefines(l.recvMax, l.rc, incoming);
    var rc' := Receive(l.recvMax, l.rc, incoming);
    assert rc'.seen == l.wire && l.wire + [] == l.wire;
    ParseFrames(l.recvMax, l.accepted);
  }

  // What has been read so far parses to frames of what was accepted, with nothing oversized, and,
  // once all of it has been read, with nothing left over.
  lemma SeenIsSound(l: Link)
    requires Inv(l)
    ensures var whole := Parse(l.recvMax, l.rc.seen);
      && whole.items <= Oks(l.accepted)
      && whole.ending.Open?
      && (l.closed && l.rc.seen == l.wire ==> whole.ending == Open([]))
  {
    hide Explains, Frames, Parse, Oks;
    var more := l.wire[|l.rc.seen|..] + l.writeBuf;
    assert l.rc.seen + more == l.wire + l.writeBuf;
    ParseFrames(l.recvMax, l.accepted);
    ParseGrows(l.recvMax, l.rc.seen, more);
    if l.closed && l.rc.seen == l.wire {
      assert l.wire + [] == l.wire;
    }
  }

  lemma ErrorsAreTheStreams(l: Link, incoming: seq<ReadEvent>)
    requires Inv(l) && Faithful(l, incoming)
    ensures var p := PollNext(l.recvMax, l.rc.reader, incoming);
      IsError(p.poll) ==> p.poll == Ready(Some(Err(Io(Stream)))) && exists e :: e in incoming && e.ReadFailed?
  {
    var p := PollNext(l.recvMax, l.rc.reader, incoming);
    var l' := Next(l, PollWith(incoming));
    NextKeepsInv(l, PollWith(incoming));
    OnePollRefines(l.recvMax, l.rc, incoming);
    ErrorKinds(l.recvMax, l.rc.reader, incoming);
    SeenIsSound(l');
    hide PollNext, Receive, Explains, Faithful, Frames, Parse;
    if CarriesFrame(p.poll) {
      var whole := Parse(l.recvMax, l'.rc.seen);
      assert whole.items[|l.rc.delivered|] == Oks(l.accepted)[|l.rc.delivered|];
    }
  }

  lemma {:induction false} ErrorKinds(max: nat, r: Reader, incoming: seq<ReadEvent>)
    ensures var p := PollNext(max, r, incoming);
      IsError(p.poll) && p.poll.value.value.error.Io? ==>
        || p.poll.value.value.error.error == InvalidData
        || p.poll.value.value.error.error == UnexpectedEof
        || (p.poll.value.value.error.error == Stream && exists e :: e in incoming && e.ReadFailed?)
    decreases |incoming|, !r.eof
  {
    hide Take, Decode;
    if Take(max, r.buf).Taken? {
      DecodeNotIo(Take(max, r.buf).body);
    } else if Take(max, r.buf).NotYet? && !r.eof && incoming != [] {
      if incoming[0].Data? {
        ErrorKinds(max, r.(buf := r.buf + incoming[0].bytes), incoming[1..]);
      } else if incoming[0].Eof? {
        ErrorKinds(max, r.(eof := true), incoming[1..]);
      } else if incoming[0].ReadFailed? {
        assert incoming[0] in incoming;
      }
    }
  }

  // Answers that bring data or keep the reader waiting, in any order, and then the end.
  ghost predicate ToTheEnd(eof: bool, incoming: seq<ReadEvent>) {
    if eof then incoming == []
    else
      && incoming != []
      && incoming[|incoming| - 1].Eof?
      && forall i :: 0 <= i < |incoming| - 1 ==> incoming[i].Data? || incoming[i].ReadPending?
  }

  function Pendings(incoming: seq<ReadEvent>): nat {
    if incoming == [] then 0 else (if incoming[0].ReadPending? then 1 else 0) + Pendings(incoming[1..])
  }

  // A schedule that brings the rest of the bytes, with any number of pending answers between them,
  // and then the end.
  ghost predicate Drains(l: Link, incoming: seq<ReadEvent>) {
    ToTheEnd(l.rc.reader.eof, incoming) && (!l.rc.reader.eof ==> l.rc.seen + BytesOf(incoming) == l.wire)
  }

  // What is left to happen: messages to deliver and pending answers to sit through.
  function Ahead(l: Link, incoming: seq<ReadEvent>): int {
    |l.accepted| - |l.rc.delivered| + Pendings(incoming)
  }

  // Liveness of delivery: once the sender has flushed and closed, each further poll either uses up
  // a pending answer or yields the next accepted message; after the last of both comes the clean
  // end, and not before.
  lemma ClosedLinkDelivers(l: Link, incoming: seq<ReadEvent>)
    requires Inv(l) && l.closed && Drains(l, incoming)
    ensures |l.rc.delivered| <= |l.accepted|
    ensures var p := PollNext(l.recvMax, l.rc.reader, incoming);
            var l' := Next(l, PollWith(incoming));
            && (p.poll == Ready(None) <==> Ahead(l, incoming) == 0)
            && (p.poll != Ready(None) ==>
                  && Inv(l') && Drains(l', p.incoming) && Ahead(l', p.incoming) == Ahead(l, incoming) - 1
                  && if p.poll.Pending? then l'.rc.delivered == l.rc.delivered
                     else |l.rc.delivered| < |l.accepted| && p.poll == Ready(Some(Ok(l.accepted[|l.rc.delivered|]))))
  {
    hide PollNext, Inv, Frames, Fit, BytesOf, Pendings;
    InvMeansPrefix(l);
    DrainsFaithful(l, incoming);
    BufferHoldsRest(l, incoming);
    PollDrains(l.recvMax, l.rc.reader, incoming, l.accepted[|l.rc.delivered|..]);
    NextKeepsInv(l, PollWith(incoming));
    var p := PollNext(l.recvMax, l.rc.reader, incoming);
    PollConsumes(l.recvMax, l.rc.reader, incoming);
    if p.poll != Ready(None) && !p.reader.eof {
      StillToCome(l, incoming);
    }
  }

  // What a poll leaves of the schedule brings exactly what it left of the bytes.
  lemma StillToCome(l: Link, incoming: seq<ReadEvent>)
    ensures var p := PollNext(l.recvMax, l.rc.reader, incoming);
            Receive(l.recvMax, l.rc, incoming).seen + BytesOf(p.incoming) == l.rc.seen + BytesOf(incoming)
  {
    hide PollNext, Answers;
    PollConsumes(l.recvMax, l.rc.reader, incoming);
    var p := PollNext(l.recvMax, l.rc.reader, incoming);
    var n := |incoming| - |p.incoming|;
    assert incoming == incoming[..n] + incoming[n..];
    BytesOfAppend(incoming[..n], incoming[n..]);
  }

  // Hence a run of polls after the close, as many as there are messages and pending answers left,
  // delivers exactly everything, and the next one ends cleanly.
  lemma {:induction false} ClosedLinkDeliversAll(l: Link, incoming: seq<ReadEvent>)
    requires Inv(l) && l.closed && Drains(l, incoming) && Ahead(l, incoming) >= 0
    ensures var (rc, later) := ReceiveAll(l.recvMax, l.rc, incoming, Ahead(l, incoming));
            rc.delivered == Oks(l.accepted) && PollNext(l.recvMax, rc.reader, later).poll == Ready(None)
    decreases Ahead(l, incoming)
  {
    hide PollNext, Receive, Inv, Drains, Pendings;
    ClosedLinkDelivers(l, incoming);
    InvMeansPrefix(l);
    if Ahead(l, incoming) > 0 {
      var l' := Next(l, PollWith(incoming));
      ClosedLinkDeliversAll(l', PollNext(l.recvMax, l.rc.reader, incoming).incoming);
    }
  }

  lemma {:induction false} DataOnly(incoming: seq<ReadEvent>, i: nat)
    requires ToTheEnd(false, incoming) && i < |incoming|
    ensures incoming[i].Eof? ==> BytesOf(incoming[..i]) == BytesOf(incoming)
  {
    if incoming[i].Eof? {
      assert i == |incoming| - 1;
      var last := incoming[i..];
      assert incoming == incoming[..i] + last;
      assert last[1..] == [];
      BytesOfAppend(incoming[..i], last);
      assert BytesOf(last) == [];
    }
  }

  lemma DrainsFaithful(l: Link, incoming: seq<ReadEvent>)
    requires Inv(l) && l.closed && Drains(l, incoming)
    ensures Faithful(l, incoming)
  {
    if !l.rc.reader.eof {
      forall i | 0 <= i < |incoming| && incoming[i].Eof?
        ensures l.rc.seen + BytesOf(incoming[..i]) == l.wire
      {
        DataOnly(incoming, i);
      }
      assert BytesOf(incoming) == l.wire[|l.rc.seen|..];
    }
  }

  // What is buffered and still to come is the frames of what has not been delivered.
  lemma BufferHoldsRest(l: Link, incoming: seq<ReadEvent>)
    requires Inv(l) && l.closed && Drains(l, incoming) && l.rc.delivered <= Oks(l.accepted)
    ensures Fit(l.recvMax, l.accepted[|l.rc.delivered|..])
    ensures l.rc.reader.buf + BytesOf(incoming) == Frames(l.accepted[|l.rc.delivered|..])
  {
    hide Frames, Encode, Take, Decode, Parse, U32;
    var max := l.recvMax;
    var more := BytesOf(incoming);
    assert l.wire == Frames(l.accepted);
    assert l.rc.seen + more == Frames(l.accepted);
    ParseFrames(max, l.accepted);
    assert Parse(max, l.rc.seen + more) == After(l.rc.delivered, Parse(max, l.rc.reader.buf + more));
    var rest := Parse(max, l.rc.reader.buf + more);
    assert rest.ending == Open([]);
    var ms := l.accepted[|l.rc.delivered|..];
    forall i | 0 <= i < |rest.items|
      ensures rest.items[i] == Ok(ms[i])
    {
      assert (l.rc.delivered + rest.items)[|l.rc.delivered| + i] == Oks(l.accepted)[|l.rc.delivered| + i];
    }
    assert rest.items == Oks(ms);
    ParsedBytes(max, l.rc.reader.buf + more, ms);
  }

  // A byte string is determined by well-formed items that use all of it.
  lemma {:induction false} ParsedBytes(max: nat, bs: Bytes, ms: seq<WireMessage>)
    requires Fit(max, ms) && Parse(max, bs) == Parsed(Oks(ms), Open([]))
    ensures bs == Frames(ms)
    decreases |bs|
  {
    ParseTaken(max, bs);
    hide Decode, Encode, U32Bytes, Parse;
    var t := Take(max, bs);
    if t.Taken? {
      var rest := Parse(max, t.rest);
      assert Oks(ms)[0] == Decode(t.body);
      EncodeDecode(t.body);
      assert t.body == Encode(ms[0]);
      assert rest.items == Oks(ms)[1..];
      assert Oks(ms)[1..] == Oks(ms[1..]);
      ParsedBytes(max, t.rest, ms[1..]);
      var prefix := bs[..LENGTH_PREFIX_BYTES];
      PrefixIsLength(prefix);
      assert bs == prefix + t.body + t.rest;
    } else {
      assert bs == [];
      assert |Oks(ms)| == 0;
    }
  }

  lemma PrefixIsLength(prefix: Bytes)
    requires |prefix| == LENGTH_PREFIX_BYTES
    ensures U32Bytes(U32(prefix)) == prefix
  {
    var three := prefix[0] as int * 256 + prefix[1] as int;
    HighLow(prefix[0] as int, prefix[1] as int);
    HighLow(three, prefix[2] as int);
    HighLow(three * 256 + prefix[2] as int, prefix[3] as int);
  }

  lemma HighLow(high: nat, low: nat)
    requires low < 256
    ensures (high * 256 + low) / 256 == high && (high * 256 + low) % 256 == low
  {
  }

  // One poll of a schedule that runs to the end, against the messages still to come.
  ghost predicate DrainsBy(p: Polled, incoming: seq<ReadEvent>, ms: seq<WireMessage>) {
    if p.poll.Pending? then
      !p.reader.eof && ToTheEnd(false, p.incoming) && Pendings(p.incoming) == Pendings(incoming) - 1
    else if ms == [] then p.poll == Ready(None) && Pendings(incoming) == 0
    else p.poll == Ready(Some(Ok(ms[0]))) && ToTheEnd(p.reader.eof, p.incoming) && Pendings(p.incoming) == Pendings(incoming)
  }

  // A poll that finds no frame goes on with what it reads.
  lemma PollReads(max: nat, r: Reader, incoming: seq<ReadEvent>, r': Reader)
    requires Take(max, r.buf).NotYet? && !r.eof && incoming != [] && (incoming[0].Data? || incoming[0].Eof?)
    requires r' == if incoming[0].Data? then r.(buf := r.buf + incoming[0].bytes) else r.(eof := true)
    ensures PollNext(max, r, incoming) == PollNext(max, r', incoming[1..])
  {
    hide Take;
  }

  lemma {:induction false} PollDrains(max: nat, r: Reader, incoming: seq<ReadEvent>, ms: seq<WireMessage>)
    requires Fit(max, ms) && r.buf + BytesOf(incoming) == Frames(ms) && ToTheEnd(r.eof, incoming)
    ensures DrainsBy(PollNext(max, r, incoming), incoming, ms)
    decreases |incoming|, !r.eof
  {
    hide Take, Decode, Frames, Fit, DrainsBy, PollNext;
    BufferMeans(max, r.buf, BytesOf(incoming), ms);
    if !Take(max, r.buf).NotYet? || r.eof || incoming[0].ReadPending? {
      PollDrainsNow(max, r, incoming, ms);
    } else {
      var e := incoming[0];
      var r' := if e.Data? then r.(buf := r.buf + e.bytes) else r.(eof := true);
      assert r'.buf + BytesOf(incoming[1..]) == r.buf + BytesOf(incoming);
      PollDrains(max, r', incoming[1..], ms);
      PollReads(max, r, incoming, r');
      DrainsLater(PollNext(max, r', incoming[1..]), incoming, ms);
    }
  }

  lemma PollDrainsNow(max: nat, r: Reader, incoming: seq<ReadEvent>, ms: seq<WireMessage>)
    requires ToTheEnd(r.eof, incoming)
    requires !Take(max, r.buf).NotYet? || r.eof || incoming[0].ReadPending?
    requires !Take(max, r.buf).TooLong?
    requires Take(max, r.buf).Taken? ==> ms != [] && Decode(Take(max, r.buf).body) == Ok(ms[0])
    requires Take(max, r.buf).NotYet? && r.eof ==> r.buf == [] && ms == []
    ensures DrainsBy(PollNext(max, r, incoming), incoming, ms)
  {
    hide Take, Decode;
  }

  lemma DrainsLater(p: Polled, incoming: seq<ReadEvent>, ms: seq<WireMessage>)
    requires incoming != [] && !incoming[0].ReadPending? && DrainsBy(p, incoming[1..], ms)
    ensures DrainsBy(p, incoming, ms)
  {
    hide ToTheEnd;
  }

  // The front of the frames of some messages: the first of them, or not enough of it.
  lemma BufferMeans(max: nat, buf: Bytes, more: Bytes, ms: seq<WireMessage>)
    requires Fit(max, ms) && buf + more == Frames(ms)
    ensures !Take(max, buf).TooLong?
    ensures Take(max, buf).Taken? ==> ms != [] && Decode(Take(max, buf).body) == Ok(ms[0])
    ensures Take(max, buf).NotYet? && more == [] ==> buf == [] && ms == []
    ensures ms == [] ==> buf == [] && more == []
  {
    TakeStable(max, buf, more);
    if ms != [] {
      TakeFirstFrame(max, ms);
      DecodeEncode(ms[0]);
    }
    if more == [] {
      assert buf + more == buf;
    }
    hide Encode, Decode, U32Bytes;
  }
}
