// The TCP stream framer (internal/backend/framer.go) and its client, the
// receive loop of a TCP session (internal/backend/tcp.go).
module Framer {
  import opened Base
  import Buffers

  const FRAME_HEADER := 4
  const MAX_FRAME := 0x10_0000

  type Frame = seq<byte>

  // ---- the format ---------------------------------------------------------

  function Length(s: seq<byte>): (n: nat)
    requires |s| >= FRAME_HEADER
    ensures n < 0x1_0000_0000
  {
    ((s[0] as int * 256 + s[1]) * 256 + s[2]) * 256 + s[3]
  }

  function Prefixed(payload: Frame): seq<byte>
    requires |payload| <= MAX_FRAME
  {
    Be32(|payload|) + payload
  }

  function EncodeFrame(payload: Frame): Option<seq<byte>> {
    if |payload| > MAX_FRAME then None else Some(Prefixed(payload))
  }

  predicate Oversized(s: seq<byte>) {
    |s| >= FRAME_HEADER && Length(s) > MAX_FRAME
  }

  /** The length of the complete frame at the head, if there is one. */
  function Peek(s: seq<byte>): Option<nat> {
    if |s| < FRAME_HEADER || Oversized(s) || |s| < FRAME_HEADER + Length(s) then None else Some(Length(s))
  }

  function Payload(s: seq<byte>): Frame
    requires Peek(s).Some?
  {
    s[FRAME_HEADER..FRAME_HEADER + Length(s)]
  }

  function Tail(s: seq<byte>): seq<byte>
    requires Peek(s).Some?
  {
    s[FRAME_HEADER + Length(s)..]
  }

  /** All the frames of a byte stream, up to the first oversized length. */
  function Decode(s: seq<byte>): seq<Frame> {
    if Peek(s).None? then [] else [Payload(s)] + Decode(Tail(s))
  }

  /** What is left of it. */
  function Rest(s: seq<byte>): (r: seq<byte>)
    ensures Peek(r).None?
  {
    if Peek(s).None? then s else Rest(Tail(s))
  }

  predicate Sendable(fs: seq<Frame>) {
    forall i | 0 <= i < |fs| :: |fs[i]| <= MAX_FRAME
  }

  /** What sending the frames in turn puts on the wire. */
  function Wire(fs: seq<Frame>): seq<byte>
    requires Sendable(fs)
  {
    if fs == [] then [] else Wire(fs[..|fs| - 1]) + Prefixed(fs[|fs| - 1])
  }

  lemma HeadFrame(f: Frame, s: seq<byte>)
    requires |f| <= MAX_FRAME
    ensures var e := Prefixed(f) + s; Peek(e) == Some(|f|) && Payload(e) == f && Tail(e) == s
  {
  }

  lemma BytesOfLength(s: seq<byte>)
    requires |s| >= FRAME_HEADER
    ensures Be32(Length(s)) == s[..FRAME_HEADER]
  {
    var high := s[0] as int * 256 + s[1];
    LastByte(s[0], s[1]);
    LastByte(high, s[2]);
    LastByte(high * 256 + s[2], s[3]);
  }

  lemma LastByte(high: nat, low: byte)
    ensures (high * 256 + low) / 256 == high && (high * 256 + low) % 256 == low
  {
  }

  lemma LengthIsNumber(s: seq<byte>)
    requires |s| >= 4
    ensures Length(s) == Number(s[..4])
  {
    hide Number;
    NumberOfNothing();
    OneDigitMore([], s[0]);
    OneDigitMore([] + [s[0]], s[1]);
    OneDigitMore([] + [s[0]] + [s[1]], s[2]);
    OneDigitMore([] + [s[0]] + [s[1]] + [s[2]], s[3]);
    assert s[..4] == [] + [s[0]] + [s[1]] + [s[2]] + [s[3]];
  }

  /** The format: a length of four bytes, most significant first, of at most
      1 MiB, and as many bytes. */
  lemma {:induction false} FormatIs(s: seq<byte>, f: Frame)
    ensures EncodeFrame(f) == Some(s) <==> |f| <= 1048576 && |s| == 4 + |f| && Number(s[..4]) == |f| && s[4..] == f
    ensures Oversized(s) <==> |s| >= 4 && Number(s[..4]) > 1048576
    ensures Peek(s).Some? && Payload(s) == f <==>
            |f| <= 1048576 && |s| >= 4 + |f| && Number(s[..4]) == |f| && s[4..4 + |f|] == f
  {
    hide Number;
    if |s| >= 4 {
      LengthIsNumber(s);
      BytesOfLength(s);
    }
    if |f| <= 1048576 {
      Be32IsNumber(|f|);
      assert Prefixed(f)[..4] == Be32(|f|) && Prefixed(f)[4..] == f;
      if |s| >= 4 {
        assert s == s[..4] + s[4..];
      }
    }
  }

  /** Frames already sent are decoded whatever follows them. */
  lemma {:induction false} DecodeAfter(fs: seq<Frame>, s: seq<byte>)
    requires Sendable(fs)
    ensures Decode(Wire(fs) + s) == fs + Decode(s) && Rest(Wire(fs) + s) == Rest(s)
  {
    hide Prefixed, Peek, Payload, Tail;
    if fs == [] {
      assert Wire(fs) + s == s;
    } else {
      var front, last := fs[..|fs| - 1], fs[|fs| - 1];
      var e := Prefixed(last);
      assert Wire(fs) + s == Wire(front) + (e + s);
      DecodeAfter(front, e + s);
      HeadFrame(last, s);
      assert fs == front + [last];
    }
  }

  /** Decoding is exactly undoing: the frames' wire form and the rest make up
      the stream, and the rest holds no complete frame. */
  lemma {:induction false} DecodeIsExact(s: seq<byte>)
    ensures Sendable(Decode(s)) && s == Wire(Decode(s)) + Rest(s)
    decreases |s|
  {
    hide Prefixed, Peek, Payload, Tail, Wire;
    if Peek(s).Some? {
      FrameAndTail(s);
      DecodeIsExact(Tail(s));
      WirePrepend(Payload(s), Decode(Tail(s)));
      Regroup(Prefixed(Payload(s)), Wire(Decode(Tail(s))), Rest(Tail(s)));
    } else {
      NothingWired(s);
    }
  }

  lemma Regroup(a: seq<byte>, b: seq<byte>, c: seq<byte>)
    ensures (a + b) + c == a + (b + c)
  {
  }

  lemma NothingWired(s: seq<byte>)
    ensures Wire([]) + s == s
  {
  }

  lemma FrameAndTail(s: seq<byte>)
    requires Peek(s).Some?
    ensures |Payload(s)| <= MAX_FRAME && s == Prefixed(Payload(s)) + Tail(s) && |Tail(s)| < |s|
  {
    hide Length;
    BytesOfLength(s);
    assert s == s[..FRAME_HEADER] + (Payload(s) + Tail(s));
  }

  lemma {:induction false} WirePrepend(f: Frame, fs: seq<Frame>)
    requires |f| <= MAX_FRAME && Sendable(fs)
    ensures Sendable([f] + fs) && Wire([f] + fs) == Prefixed(f) + Wire(fs)
  {
    hide Prefixed;
    if fs == [] {
      assert ([f] + fs)[..0] == [];
    } else {
      var front := fs[..|fs| - 1];
      WirePrepend(f, front);
      assert ([f] + fs)[..|fs|] == [f] + front;
    }
  }

  /** Round trip: a stream is the wire form of exactly the frames it decodes
      to, when nothing is left over. */
  lemma DecodeWireIff(fs: seq<Frame>, s: seq<byte>)
    requires Sendable(fs)
    ensures s == Wire(fs) <==> Decode(s) == fs && Rest(s) == []
  {
    DecodeAfter(fs, []);
    assert Wire(fs) + [] == Wire(fs);
    DecodeIsExact(s);
    assert Wire(Decode(s)) + [] == Wire(Decode(s));
  }

  /** Nothing after an oversized length is ever decoded. */
  lemma OversizedEnds(s: seq<byte>, more: seq<byte>)
    requires Oversized(s)
    ensures Oversized(s + more) && Decode(s + more) == [] && Rest(s + more) == s + more
  {
  }

  /** "Records an error if a frame length is too large" holds of the length at
      the head of the buffer only: with s buffered, the oversized length the
      stream will stop at is recorded exactly when no complete frame precedes
      it. */
  lemma OversizeSeenIff(s: seq<byte>)
    ensures Oversized(s) <==> Oversized(Rest(s)) && Decode(s) == []
  {
  }

  /** One frame in front is enough to hide it, until the frame is taken and
      the next Write looks again. */
  lemma OversizeHidden(f: Frame, s: seq<byte>, p: seq<byte>)
    requires |f| <= MAX_FRAME && Oversized(s)
    ensures var b := Prefixed(f) + s;
            !Oversized(b) && Oversized(Rest(b)) && Peek(b).Some? && Tail(b) == s && Oversized(Tail(b) + p)
  {
  }

  /** EncodeFrame: a fresh buffer, header first. */
  method EncodeFrameBuffer(payload: Frame) returns (out: array?<byte>)
    ensures out != null ==> fresh(out)
    ensures if EncodeFrame(payload).None? then out == null else out != null && out[..] == EncodeFrame(payload).value
  {
    if |payload| > MAX_FRAME {
      return null;
    }
    out := Buffers.NewBuffer(FRAME_HEADER + |payload|);
    Buffers.CopyInto(out, 0, Be32(|payload|));
    Buffers.CopyInto(out, FRAME_HEADER, payload);
  }

  // ---- the framer ---------------------------------------------------------

  class StreamFramer {
    var buf: seq<byte>
    var failed: bool                      // ErrFrameTooLarge recorded
    ghost var offered: seq<byte>          // everything ever passed to Write
    ghost var delivered: seq<Frame>       // everything NextFrame returned
    ghost var ignored: seq<byte>          // offered after the error

    ghost predicate Valid()
      reads this
    {
      && Sendable(delivered)
      && offered == Wire(delivered) + buf + ignored
      && (failed ==> Oversized(buf))
      && (ignored != [] ==> failed)
    }

    constructor ()
      ensures Valid() && offered == [] && delivered == [] && !failed && buf == []
    {
      buf, failed, offered, delivered, ignored := [], false, [], [], [];
    }

    method Write(p: seq<byte>)
      requires Valid()
      modifies this
      ensures Valid() && offered == old(offered) + p && delivered == old(delivered)
      ensures failed == (old(failed) || Oversized(old(buf) + p))
      ensures buf == if old(failed) then old(buf) else old(buf) + p
    {
      offered := offered + p;
      if failed {
        ignored := ignored + p;
        return;
      }
      buf := buf + p;
      if |buf| >= FRAME_HEADER {
        var n := Length(buf);
        if n > MAX_FRAME {
          failed := true;
        }
      }
    }

    method Err() returns (e: bool)
      ensures e == failed
    {
      e := failed;
    }

    method PeekFrame() returns (n: Option<nat>)
      ensures n == if failed then None else Peek(buf)
    {
      if failed || |buf| < FRAME_HEADER {
        return None;
      }
      var l := Length(buf);
      if l > MAX_FRAME {
        return None;
      }
      n := if |buf| >= FRAME_HEADER + l then Some(l) else None;
    }

    /** A frame is ready exactly when one offered has not been delivered. */
    method HasFrame() returns (ok: bool)
      requires Valid()
      ensures ok <==> delivered != Decode(offered)
      ensures ok <==> Peek(buf).Some? && !failed
      ensures delivered <= Decode(offered)
    {
      var n := PeekFrame();
      ok := n.Some?;
      Undelivered(delivered, buf, ignored, failed);
      assert offered == Wire(delivered) + (buf + ignored);
    }

    /** Delivers the frames of the decoded stream in order, however the bytes
        were split over writes. */
    method NextFrame() returns (frame: Option<Frame>, tooLarge: bool)
      requires Valid()
      modifies this`buf, this`delivered
      ensures Valid()
      ensures tooLarge <==> failed
      ensures frame.Some? <==> old(delivered) != Decode(offered)
      ensures frame.Some? ==> delivered == old(delivered) + [frame.value]
      ensures frame.None? ==> delivered == old(delivered) && buf == old(buf)
      ensures delivered <= Decode(offered)
    {
      hide Wire, Decode, Rest, Length, Oversized, Prefixed;
      Undelivered(delivered, buf, ignored, failed);
      Regroup(Wire(delivered), buf, ignored);
      if failed {
        return None, true;
      }
      tooLarge := false;
      var n := PeekFrame();
      if n.None? {
        return None, false;
      }
      var payload := buf[FRAME_HEADER..FRAME_HEADER + n.value];
      assert offered == Wire(delivered) + buf;
      TakeFrame(delivered, buf);
      delivered := delivered + [payload];
      buf := buf[FRAME_HEADER + n.value..];
      frame := Some(payload);
    }
  }

  /** Moving the head frame from the buffer to the delivered ones loses and
      invents nothing. */
  lemma TakeFrame(delivered: seq<Frame>, buf: seq<byte>)
    requires Sendable(delivered) && Peek(buf).Some?
    ensures var ds := delivered + [Payload(buf)];
            && Sendable(ds) && Wire(ds) + Tail(buf) == Wire(delivered) + buf
            && ds <= Decode(Wire(delivered) + buf)
  {
    hide Length, Prefixed, Oversized;
    FrameAndTail(buf);
    assert (delivered + [Payload(buf)])[..|delivered|] == delivered;
    DecodeAfter(delivered, buf);
  }

  /** What of an offered stream is still to come, given what was delivered. */
  lemma Undelivered(delivered: seq<Frame>, buf: seq<byte>, ignored: seq<byte>, failed: bool)
    requires Sendable(delivered) && (failed ==> Oversized(buf)) && (ignored != [] ==> failed)
    ensures Decode(Wire(delivered) + (buf + ignored)) == delivered + Decode(buf)
    ensures Decode(buf) == [] <==> Peek(buf).None?
    ensures failed ==> Decode(buf) == []
    ensures Rest(Wire(delivered) + (buf + ignored)) == if failed then buf + ignored else Rest(buf)
  {
    DecodeAfter(delivered, buf + ignored);
    if failed {
      OversizedEnds(buf, ignored);
    } else {
      assert buf + ignored == buf;
    }
  }

  // ---- the receive loop ---------------------------------------------------

  datatype Outcome = Fine | TimedOut | Closed | Broken

  /** One Read: the bytes it returned and how it ended. */
  datatype Read = Read(data: seq<byte>, outcome: Outcome)

  datatype Received = Got(frame: Frame) | Timeout | Eof | Failure | TooLarge

  function Bytes(rs: seq<Read>): seq<byte> {
    if rs == [] then [] else Bytes(rs[..|rs| - 1]) + rs[|rs| - 1].data
  }

  /** A framer as one call of Recv finds it. */
  datatype Held = Held(delivered: seq<Frame>, offered: seq<byte>, buf: seq<byte>, failed: bool)

  /** With `more` read, a frame is undelivered. */
  predicate Ready(h: Held, more: seq<byte>) {
    h.delivered != Decode(h.offered + more)
  }

  /** With `more` read, an oversized length has been recorded. */
  predicate Jammed(h: Held, more: seq<byte>) {
    h.failed || (more != [] && Oversized(h.buf + more))
  }

  /** A read after which no other follows. */
  predicate Ends(read: Read) {
    read.outcome.Closed? || read.outcome.Broken? || (read.outcome.TimedOut? && read.data == [])
  }

  /** Each read was needed: there was no frame to hand out and no error. */
  ghost predicate ReadsOn(h: Held, taken: seq<Read>) {
    forall k | 0 <= k < |taken| :: !Ready(h, Bytes(taken[..k])) && !Jammed(h, Bytes(taken[..k]))
  }

  /** Why Recv stops after the reads taken, with `left` unread, and what it
      then returns. */
  ghost predicate Explained(h: Held, taken: seq<Read>, left: seq<Read>, r: Received) {
    var last := if taken == [] then Read([], Fine) else taken[|taken| - 1];
    var ready, jammed := Ready(h, Bytes(taken)), Jammed(h, Bytes(taken));
    && ReadsOn(h, taken) && (forall k | 0 <= k < |taken| - 1 :: !Ends(taken[k]))
    && (ready || jammed || Ends(last) || left == [])
    && (r.Failure? <==> last.outcome.Broken?)
    && (r.Eof? <==> last.outcome.Closed? && !ready)
    && (r.Got? <==> ready && !last.outcome.Broken?)
    && (r.TooLarge? <==> jammed && !Ends(last))
    && (r.Timeout? <==> !ready && if last.outcome.TimedOut? && last.data == [] then true else !jammed && !Ends(last))
  }

  class TcpSession {
    const framer: StreamFramer
    var pending: seq<Read>      // what the connection will return; afterwards nothing arrives in time

    constructor (pending: seq<Read>)
      ensures this.pending == pending && fresh(framer) && framer.Valid() && framer.offered == [] && framer.delivered == []
    {
      this.pending := pending;
      framer := new StreamFramer();
    }

    method ReadConn() returns (r: Read)
      modifies this`pending
      ensures if old(pending) == [] then r == Read([], TimedOut) && pending == []
              else r == old(pending)[0] && pending == old(pending)[1..]
    {
      if pending == [] {
        return Read([], TimedOut);
      }
      r := pending[0];
      pending := pending[1..];
    }

    /** The next frame of the stream, or exactly why there is none: see
        Explained. */
    method Recv() returns (r: Received)
      requires framer.Valid()
      modifies this`pending, framer
      ensures framer.Valid() && framer.delivered <= Decode(framer.offered)
      ensures framer.delivered == old(framer.delivered) + if r.Got? then [r.frame] else []
      ensures exists taken ::
                && old(pending) == taken + pending && framer.offered == old(framer.offered) + Bytes(taken)
                && Explained(Held(old(framer.delivered), old(framer.offered), old(framer.buf), old(framer.failed)), taken, pending, r)
      ensures r.Timeout? || r.Eof? || r.TooLarge? ==> framer.delivered == Decode(framer.offered)
      ensures r.TooLarge? ==> Oversized(Rest(framer.offered))
    {
      hide Decode, Rest, Oversized, Peek, Bytes, StreamFramer.Valid, Wire, Explained, ReadsOn;
      ghost var taken: seq<Read> := [];
      ghost var h := Held(framer.delivered, framer.offered, framer.buf, framer.failed);
      NoneTaken(h);
      while true
        invariant framer.Valid() && framer.delivered == h.delivered
        invariant old(pending) == taken + pending && framer.offered == h.offered + Bytes(taken)
        invariant framer.failed == Jammed(h, Bytes(taken)) && (!h.failed ==> framer.buf == h.buf + Bytes(taken))
        invariant Awaiting(h, taken)
        decreases |pending|
      {
        var e := framer.Err();
        if e {
          FailedIsDrained();
          StopsBefore(h, taken, pending, TooLarge);
          return TooLarge;
        }
        var ready := framer.HasFrame();
        if ready {
          var frame, _ := framer.NextFrame();
          StopsBefore(h, taken, pending, Got(frame.value));
          return Got(frame.value);
        }
        ghost var before, sofar := pending, taken;
        var read := ReadConn();
        if before == [] {
          StopsBefore(h, taken, pending, Timeout);
        } else {
          Taken(h, taken, read);
          taken := taken + [read];
        }
        if read.outcome.TimedOut? {
          if |read.data| == 0 {
            if before != [] {
              StopsAfter(h, sofar, read, pending, Timeout);
            }
            return Timeout;
          }
          framer.Write(read.data);
          continue;
        }
        if |read.data| > 0 {
          framer.Write(read.data);
        }
        assert framer.offered == h.offered + Bytes(taken);
        if !read.outcome.Fine? {
          ready := framer.HasFrame();
          if read.outcome.Closed? && ready {
            var frame, _ := framer.NextFrame();
            StopsAfter(h, sofar, read, pending, Got(frame.value));
            return Got(frame.value);
          }
          r := if read.outcome.Closed? then Eof else Failure;
          StopsAfter(h, sofar, read, pending, r);
          return;
        }
      }
    }

    lemma FailedIsDrained()
      requires framer.Valid() && framer.failed
      ensures framer.delivered == Decode(framer.offered) && Oversized(Rest(framer.offered))
    {
      assert framer.offered == Wire(framer.delivered) + (framer.buf + framer.ignored);
      Undelivered(framer.delivered, framer.buf, framer.ignored, true);
      OversizedEnds(framer.buf, framer.ignored);
    }
  }

  lemma NoneTaken(h: Held)
    ensures Bytes([]) == [] && ReadsOn(h, [])
  {
  }

  lemma BytesTaken(taken: seq<Read>, read: Read)
    ensures Bytes(taken + [read]) == Bytes(taken) + read.data
  {
  }

  /** One more read goes on where the others left off. */
  lemma Taken(h: Held, taken: seq<Read>, read: Read)
    requires ReadsOn(h, taken) && !Ready(h, Bytes(taken)) && !Jammed(h, Bytes(taken))
    ensures Bytes(taken + [read]) == Bytes(taken) + read.data
    ensures ReadsOn(h, taken + [read])
    ensures Jammed(h, Bytes(taken + [read])) <==> read.data != [] && Oversized(h.buf + Bytes(taken) + read.data)
    ensures h.buf + Bytes(taken) + read.data == h.buf + Bytes(taken + [read])
    ensures read.data == [] ==> Bytes(taken + [read]) == Bytes(taken)
  {
    hide Bytes, Oversized, Ready;
    BytesTaken(taken, read);
    var longer := taken + [read];
    assert longer[..|taken|] == taken;
    forall k | 0 <= k < |longer| ensures !Ready(h, Bytes(longer[..k])) && !Jammed(h, Bytes(longer[..k])) {
      if k < |taken| {
        assert longer[..k] == taken[..k];
      }
    }
    assert h.buf + Bytes(taken) + read.data == h.buf + (Bytes(taken) + read.data);
    if read.data == [] {
      assert Bytes(taken) + read.data == Bytes(taken);
    } else {
      assert Bytes(taken + [read]) != [];
    }
  }

  /** The reads so far, none of which ended the stretch. */
  ghost predicate Awaiting(h: Held, taken: seq<Read>) {
    ReadsOn(h, taken) && forall k | 0 <= k < |taken| :: !Ends(taken[k])
  }

  lemma StopsBefore(h: Held, taken: seq<Read>, left: seq<Read>, r: Received)
    requires Awaiting(h, taken)
    requires match r
             case TooLarge => Jammed(h, Bytes(taken)) && !Ready(h, Bytes(taken))
             case Got(_) => Ready(h, Bytes(taken)) && !Jammed(h, Bytes(taken))
             case Timeout => left == [] && !Ready(h, Bytes(taken)) && !Jammed(h, Bytes(taken))
             case _ => false
    ensures Explained(h, taken, left, r)
  {
    hide Ready, Jammed, Bytes, ReadsOn;
  }

  lemma StopsAfter(h: Held, taken: seq<Read>, read: Read, left: seq<Read>, r: Received)
    requires Awaiting(h, taken) && ReadsOn(h, taken + [read]) && Ends(read)
    requires var ready := Ready(h, Bytes(taken + [read]));
             match r
             case Got(_) => read.outcome.Closed? && ready
             case Eof => read.outcome.Closed? && !ready
             case Failure => read.outcome.Broken?
             case Timeout => read.outcome.TimedOut? && !ready
             case TooLarge => false
    ensures Explained(h, taken + [read], left, r)
  {
    hide Ready, Jammed, Bytes, ReadsOn;
    var all := taken + [read];
    assert forall k | 0 <= k < |all| - 1 :: all[k] == taken[k];
  }
}
