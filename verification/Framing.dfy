/**
 * The incremental framer. Scan, Absorb, Pull and Drain are a framer without
 * memory of a half-read header: they define what a byte string means.
 * PvaCodec is the machine that is fed the bytes in pieces.
 */
module Framing {
  import opened Wrappers
  import opened PvData
  import opened Header

  type u32 = n: int | 0 <= n < 0x1_0000_0000

  datatype PvaFrame = PvaFrame(header: PvaHeader, payload: seq<byte>)

  datatype SegmentBuffer = SegmentBuffer(header: PvaHeader, data: seq<byte>)

  datatype CodecError =
    | BadMagic(magic: byte)
    | NegativePayload(payload: i32)
    | PayloadTooLarge(size: u32)
    | SegmentTooLarge
    | UnexpectedSegment

  // -------------------------------------------------------------------------
  // What a byte string means
  // -------------------------------------------------------------------------

  datatype Scanned = Incomplete | Malformed(error: CodecError) | Complete(message: PvaFrame, rest: seq<byte>)

  /** Read one whole message off the front of the buffer; a control message has no payload bytes. */
  function Scan(maxPayload: u32, buf: seq<byte>): (s: Scanned)
    ensures s.Complete? ==> |buf| == HEADER_SIZE + |s.message.payload| + |s.rest|
    ensures s.Complete? ==> |s.message.payload| <= maxPayload
  {
    if |buf| < HEADER_SIZE then Incomplete
    else match PvaHeader.Decode(buf[..HEADER_SIZE])
      case None => Malformed(BadMagic(buf[0]))
      case Some(h) =>
        if h.IsControl() then Complete(PvaFrame(h, []), buf[HEADER_SIZE..])
        else if h.payloadSize < 0 then Malformed(NegativePayload(h.payloadSize))
        else if h.payloadSize > maxPayload then Malformed(PayloadTooLarge(h.payloadSize))
        else
          var needed := HEADER_SIZE + h.payloadSize;
          if |buf| < needed then Incomplete
          else Complete(PvaFrame(h, buf[HEADER_SIZE..needed]), buf[needed..])
  }

  datatype Absorbed =
    | Deliver(frame: PvaFrame, segment: Option<SegmentBuffer>)
    | Hold(segment: Option<SegmentBuffer>)
    | Reject(error: CodecError, segment: Option<SegmentBuffer>)

  /** The frame that stands for a reassembled run of segments. */
  function Assembled(first: PvaHeader, data: seq<byte>): PvaFrame {
    PvaFrame(first.(payloadSize := WrapI32(|data|)).WithSegmentation(Whole), data)
  }

  /** The effect of one whole message on the segment being assembled. */
  function Absorb(maxPayload: u32, segment: Option<SegmentBuffer>, m: PvaFrame): Absorbed {
    if m.header.IsControl() then Deliver(m, segment)
    else match m.header.Segment()
      case Whole => Deliver(m, segment)
      case First => Hold(Some(SegmentBuffer(m.header, m.payload)))
      case Middle =>
        if segment.None? then Reject(UnexpectedSegment, None)
        else if |segment.value.data| + |m.payload| > maxPayload * 4 then Reject(SegmentTooLarge, segment)
        else Hold(Some(segment.value.(data := segment.value.data + m.payload)))
      case Last =>
        if segment.None? then Reject(UnexpectedSegment, None)
        else if |segment.value.data| + |m.payload| > maxPayload * 4 then Reject(SegmentTooLarge, None)
        else Deliver(Assembled(segment.value.header, segment.value.data + m.payload), None)
  }

  type Outcome = Result<Option<PvaFrame>, CodecError>

  datatype Pulled = Pulled(outcome: Outcome, segment: Option<SegmentBuffer>, rest: seq<byte>)

  /** The next frame or error in the buffer, or Ok(None) when more bytes are needed. */
  function Pull(maxPayload: u32, segment: Option<SegmentBuffer>, buf: seq<byte>): (p: Pulled)
    ensures |p.rest| <= |buf|
    ensures p.outcome.Ok? && p.outcome.value.Some? ==> |p.rest| < |buf|
    decreases |buf|
  {
    match Scan(maxPayload, buf)
    case Incomplete => Pulled(Ok(None), segment, buf)
    case Malformed(e) => Pulled(Err(e), segment, buf)
    case Complete(m, rest) =>
      match Absorb(maxPayload, segment, m)
      case Deliver(f, segment') => Pulled(Ok(Some(f)), segment', rest)
      case Hold(segment') => Pull(maxPayload, segment', rest)
      case Reject(e, segment') => Pulled(Err(e), segment', rest)
  }

  datatype Drained =
    Drained(frames: seq<PvaFrame>, error: Option<CodecError>, segment: Option<SegmentBuffer>, rest: seq<byte>)
  {
    function After(earlier: seq<PvaFrame>): Drained {
      this.(frames := earlier + frames)
    }
  }

  /** Every frame up to the first error, or up to the first incomplete message. */
  function Drain(maxPayload: u32, segment: Option<SegmentBuffer>, buf: seq<byte>): Drained
    decreases |buf|
  {
    var p := Pull(maxPayload, segment, buf);
    match p.outcome
    case Err(e) => Drained([], Some(e), p.segment, p.rest)
    case Ok(None) => Drained([], None, p.segment, p.rest)
    case Ok(Some(f)) => Drain(maxPayload, p.segment, p.rest).After([f])
  }

  function Flatten(chunks: seq<seq<byte>>): seq<byte> {
    if chunks == [] then [] else chunks[0] + Flatten(chunks[1..])
  }

  /** Drain after every arriving chunk, stopping at the first error. */
  function Feed(maxPayload: u32, segment: Option<SegmentBuffer>, pending: seq<byte>, chunks: seq<seq<byte>>): Drained
    decreases |chunks|
  {
    if chunks == [] then Drained([], None, segment, pending)
    else
      var d := Drain(maxPayload, segment, pending + chunks[0]);
      if d.error.Some? then d else Feed(maxPayload, d.segment, d.rest, chunks[1..]).After(d.frames)
  }

  // -------------------------------------------------------------------------
  // How the bytes are cut into chunks does not matter
  // -------------------------------------------------------------------------

  lemma ScanExtends(maxPayload: u32, a: seq<byte>, b: seq<byte>)
    ensures var s := Scan(maxPayload, a);
      && (s.Malformed? ==> Scan(maxPayload, a + b) == s)
      && (s.Complete? ==> Scan(maxPayload, a + b) == s.(rest := s.rest + b))
  {
    if |a| >= HEADER_SIZE {
      assert (a + b)[..HEADER_SIZE] == a[..HEADER_SIZE];
      var s := Scan(maxPayload, a);
      if s.Complete? {
        var n := HEADER_SIZE + |s.message.payload|;
        assert (a + b)[HEADER_SIZE..n] == a[HEADER_SIZE..n];
        assert (a + b)[n..] == a[n..] + b;
      }
    }
  }

  /** Extra bytes behind a settled outcome stay behind it; behind Ok(None) they continue from where it stopped. */
  lemma {:induction false} PullExtends(maxPayload: u32, segment: Option<SegmentBuffer>, a: seq<byte>, b: seq<byte>)
    ensures var p := Pull(maxPayload, segment, a);
      Pull(maxPayload, segment, a + b)
      == if p.outcome == Ok(None) then Pull(maxPayload, p.segment, p.rest + b) else p.(rest := p.rest + b)
    decreases |a|
  {
    ScanExtends(maxPayload, a, b);
    var s := Scan(maxPayload, a);
    if s.Complete? {
      var absorbed := Absorb(maxPayload, segment, s.message);
      if absorbed.Hold? {
        PullExtends(maxPayload, absorbed.segment, s.rest, b);
      }
    }
  }

  lemma AfterAfter(d: Drained, first: seq<PvaFrame>, second: seq<PvaFrame>)
    ensures d.After(second).After(first) == d.After(first + second)
  {
    assert first + (second + d.frames) == first + second + d.frames;
  }

  lemma {:induction false} DrainExtends(maxPayload: u32, segment: Option<SegmentBuffer>, a: seq<byte>, b: seq<byte>)
    ensures var d := Drain(maxPayload, segment, a);
      Drain(maxPayload, segment, a + b)
      == if d.error.None? then Drain(maxPayload, d.segment, d.rest + b).After(d.frames) else d.(rest := d.rest + b)
    decreases |a|
  {
    PullExtends(maxPayload, segment, a, b);
    var p := Pull(maxPayload, segment, a);
    if p.outcome.Ok? && p.outcome.value.Some? {
      DrainExtends(maxPayload, p.segment, p.rest, b);
      var f, d := p.outcome.value.value, Drain(maxPayload, p.segment, p.rest);
      AfterAfter(Drain(maxPayload, d.segment, d.rest + b), [f], d.frames);
    }
  }

  lemma FeedUnfolds(
      maxPayload: u32, segment: Option<SegmentBuffer>, pending: seq<byte>, chunks: seq<seq<byte>>, earlier: seq<PvaFrame>)
    requires chunks != []
    ensures var d := Drain(maxPayload, segment, pending + chunks[0]);
      Feed(maxPayload, segment, pending, chunks).After(earlier)
      == if d.error.Some? then d.After(earlier)
         else Feed(maxPayload, d.segment, d.rest, chunks[1..]).After(earlier + d.frames)
  {
    var d := Drain(maxPayload, segment, pending + chunks[0]);
    AfterAfter(Feed(maxPayload, d.segment, d.rest, chunks[1..]), earlier, d.frames);
  }

  lemma FeedNothing(maxPayload: u32, segment: Option<SegmentBuffer>, pending: seq<byte>, earlier: seq<PvaFrame>)
    ensures Feed(maxPayload, segment, pending, []).After(earlier) == Drained(earlier, None, segment, pending)
  {
    assert earlier + [] == earlier;
  }

  /** Nothing can be pulled: what a receiver holds between reads. */
  predicate Quiescent(maxPayload: u32, segment: Option<SegmentBuffer>, buf: seq<byte>) {
    Pull(maxPayload, segment, buf) == Pulled(Ok(None), segment, buf)
  }

  lemma {:induction false} PullSettles(maxPayload: u32, segment: Option<SegmentBuffer>, buf: seq<byte>)
    ensures var p := Pull(maxPayload, segment, buf);
      p.outcome == Ok(None) ==> Quiescent(maxPayload, p.segment, p.rest)
    decreases |buf|
  {
    var s := Scan(maxPayload, buf);
    if s.Complete? {
      var absorbed := Absorb(maxPayload, segment, s.message);
      if absorbed.Hold? {
        PullSettles(maxPayload, absorbed.segment, s.rest);
      }
    }
  }

  lemma {:induction false} DrainSettles(maxPayload: u32, segment: Option<SegmentBuffer>, buf: seq<byte>)
    ensures var d := Drain(maxPayload, segment, buf);
      d.error.None? ==> Quiescent(maxPayload, d.segment, d.rest)
    decreases |buf|
  {
    var p := Pull(maxPayload, segment, buf);
    PullSettles(maxPayload, segment, buf);
    if p.outcome.Ok? && p.outcome.value.Some? {
      DrainSettles(maxPayload, p.segment, p.rest);
    }
  }

  /**
   * However a byte string is cut into chunks, the frames up to the first error
   * and that error are those of the whole string; without an error the bytes
   * and the segment left over are the same too.
   */
  lemma {:induction false} ChunkingIsInvisible(
      maxPayload: u32, segment: Option<SegmentBuffer>, pending: seq<byte>, chunks: seq<seq<byte>>)
    requires Quiescent(maxPayload, segment, pending)
    ensures var fed := Feed(maxPayload, segment, pending, chunks);
      var whole := Drain(maxPayload, segment, pending + Flatten(chunks));
      && fed.frames == whole.frames
      && fed.error == whole.error
      && (whole.error.None? ==> fed == whole)
    decreases |chunks|
  {
    if chunks == [] {
      assert pending + Flatten(chunks) == pending;
    } else {
      var first, later := pending + chunks[0], Flatten(chunks[1..]);
      assert pending + Flatten(chunks) == first + later;
      DrainExtends(maxPayload, segment, first, later);
      var d := Drain(maxPayload, segment, first);
      if d.error.None? {
        DrainSettles(maxPayload, segment, first);
        ChunkingIsInvisible(maxPayload, d.segment, d.rest, chunks[1..]);
      }
    }
  }

  // -------------------------------------------------------------------------
  // Whole messages on the wire
  // -------------------------------------------------------------------------

  function WireOf(m: PvaFrame): seq<byte> {
    m.header.Encode() + m.payload
  }

  function WireOfAll(ms: seq<PvaFrame>): seq<byte> {
    if ms == [] then [] else WireOf(ms[0]) + WireOfAll(ms[1..])
  }

  /** A message a peer may send: its header tells the truth about a payload within the limit. */
  predicate Transmittable(maxPayload: u32, m: PvaFrame) {
    if m.header.IsControl() then m.payload == []
    else m.header.payloadSize == |m.payload| <= maxPayload
  }

  /** The message is a frame of its own, not a segment of one. */
  predicate Passes(m: PvaFrame) {
    m.header.IsControl() || m.header.Segment() == Whole
  }

  /** What a list of whole messages yields, one Absorb at a time. */
  function Exchange(maxPayload: u32, segment: Option<SegmentBuffer>, ms: seq<PvaFrame>): Drained
    decreases |ms|
  {
    if ms == [] then Drained([], None, segment, [])
    else match Absorb(maxPayload, segment, ms[0])
      case Deliver(f, segment') => Exchange(maxPayload, segment', ms[1..]).After([f])
      case Hold(segment') => Exchange(maxPayload, segment', ms[1..])
      case Reject(e, segment') => Drained([], Some(e), segment', WireOfAll(ms[1..]))
  }

  lemma ScanWire(maxPayload: u32, m: PvaFrame, rest: seq<byte>)
    requires Transmittable(maxPayload, m)
    ensures Scan(maxPayload, WireOf(m) + rest) == Complete(m, rest)
  {
    var buf := WireOf(m) + rest;
    assert buf[..HEADER_SIZE] == m.header.Encode();
    HeaderRoundTrip(m.header);
    var n := HEADER_SIZE + |m.payload|;
    assert buf[HEADER_SIZE..n] == m.payload && buf[n..] == rest;
  }

  /** The framer recovers message boundaries: draining bytes is absorbing messages. */
  lemma {:induction false} DrainIsExchange(maxPayload: u32, segment: Option<SegmentBuffer>, ms: seq<PvaFrame>)
    requires forall m | m in ms :: Transmittable(maxPayload, m)
    ensures Drain(maxPayload, segment, WireOfAll(ms)) == Exchange(maxPayload, segment, ms)
    decreases |ms|
  {
    if ms != [] {
      ScanWire(maxPayload, ms[0], WireOfAll(ms[1..]));
      var absorbed := Absorb(maxPayload, segment, ms[0]);
      if !absorbed.Reject? {
        DrainIsExchange(maxPayload, absorbed.segment, ms[1..]);
      }
    }
  }

  lemma AbsorbPassing(maxPayload: u32, segment: Option<SegmentBuffer>, m: PvaFrame)
    requires Passes(m)
    ensures Absorb(maxPayload, segment, m) == Deliver(m, segment)
  {
  }

  lemma {:induction false} ExchangePassing(maxPayload: u32, segment: Option<SegmentBuffer>, fs: seq<PvaFrame>)
    requires forall f | f in fs :: Passes(f)
    ensures Exchange(maxPayload, segment, fs) == Drained(fs, None, segment, [])
    decreases |fs|
  {
    if fs != [] {
      AbsorbPassing(maxPayload, segment, fs[0]);
      ExchangePassing(maxPayload, segment, fs[1..]);
      assert [fs[0]] + fs[1..] == fs;
    }
  }

  /** Encoding frames back to back and decoding them gives exactly those frames, with nothing left over. */
  lemma FramesRoundTrip(maxPayload: u32, segment: Option<SegmentBuffer>, fs: seq<PvaFrame>)
    requires forall f | f in fs :: Transmittable(maxPayload, f) && Passes(f)
    ensures Drain(maxPayload, segment, WireOfAll(fs)) == Drained(fs, None, segment, [])
  {
    DrainIsExchange(maxPayload, segment, fs);
    ExchangePassing(maxPayload, segment, fs);
  }

  function Passing(ms: seq<PvaFrame>): seq<PvaFrame> {
    if ms == [] then [] else (if Passes(ms[0]) then [ms[0]] else []) + Passing(ms[1..])
  }

  function Gathered(ms: seq<PvaFrame>): seq<byte> {
    if ms == [] then [] else (if Passes(ms[0]) then [] else ms[0].payload) + Gathered(ms[1..])
  }

  lemma AbsorbSegment(maxPayload: u32, buf: SegmentBuffer, m: PvaFrame)
    requires !Passes(m) && m.header.Segment() != First
    ensures var grown := buf.data + m.payload;
      Absorb(maxPayload, Some(buf), m)
      == if |grown| > maxPayload * 4
         then Reject(SegmentTooLarge, if m.header.Segment() == Last then None else Some(buf))
         else if m.header.Segment() == Last then Deliver(Assembled(buf.header, grown), None)
         else Hold(Some(SegmentBuffer(buf.header, grown)))
  {
  }

  lemma {:induction false} ExchangeSegments(maxPayload: u32, buf: SegmentBuffer, mids: seq<PvaFrame>, last: PvaFrame)
    requires forall m | m in mids :: Passes(m) || m.header.Segment() == Middle
    requires !Passes(last) && last.header.Segment() == Last
    ensures var whole := buf.data + Gathered(mids) + last.payload;
      var d := Exchange(maxPayload, Some(buf), mids + [last]);
      if |whole| <= maxPayload * 4
      then d == Drained(Passing(mids) + [Assembled(buf.header, whole)], None, None, [])
      else d.error == Some(SegmentTooLarge) && d.frames <= Passing(mids)
    decreases |mids|
  {
    var ms, whole := mids + [last], buf.data + Gathered(mids) + last.payload;
    if mids == [] {
      assert ms == [last] && ms[1..] == [];
      assert whole == buf.data + last.payload;
      AbsorbSegment(maxPayload, buf, last);
    } else {
      var m := mids[0];
      assert ms[0] == m && ms[1..] == mids[1..] + [last];
      if Passes(m) {
        AbsorbPassing(maxPayload, Some(buf), m);
        assert whole == buf.data + Gathered(mids[1..]) + last.payload;
        ExchangeSegments(maxPayload, buf, mids[1..], last);
      } else {
        AbsorbSegment(maxPayload, buf, m);
        var grown := SegmentBuffer(buf.header, buf.data + m.payload);
        assert whole == grown.data + Gathered(mids[1..]) + last.payload;
        if |grown.data| <= maxPayload * 4 {
          ExchangeSegments(maxPayload, grown, mids[1..], last);
        }
      }
    }
  }

  /**
   * A First, Middle*, Last run interleaved with control messages and whole
   * frames yields those in order and, at Last, one frame that carries the first
   * segment's header, unsegmented, over the concatenated payload. It does so
   * exactly when the total is within four times the payload limit.
   */
  lemma Reassembly(
      maxPayload: u32, segment: Option<SegmentBuffer>, first: PvaFrame, mids: seq<PvaFrame>, last: PvaFrame)
    requires forall m | m in [first] + mids + [last] :: Transmittable(maxPayload, m)
    requires !Passes(first) && first.header.Segment() == First
    requires forall m | m in mids :: Passes(m) || m.header.Segment() == Middle
    requires !Passes(last) && last.header.Segment() == Last
    ensures var whole := first.payload + Gathered(mids) + last.payload;
      var d := Drain(maxPayload, segment, WireOfAll([first] + mids + [last]));
      && (d == Drained(Passing(mids) + [Assembled(first.header, whole)], None, None, [])
          <==> |whole| <= maxPayload * 4)
      && (|whole| > maxPayload * 4 ==> d.error == Some(SegmentTooLarge) && d.frames <= Passing(mids))
  {
    var ms := [first] + mids + [last];
    assert ms[0] == first && ms[1..] == mids + [last];
    DrainIsExchange(maxPayload, segment, ms);
    ExchangeSegments(maxPayload, SegmentBuffer(first.header, first.payload), mids, last);
  }

  /**
   * The size in an assembled header passes through a signed 32-bit cast, so it is the
   * payload's length exactly below 2^31; with a limit below 2^29 every total within the
   * limit is.
   */
  lemma AssembledSize(maxPayload: u32, first: PvaHeader, data: seq<byte>)
    ensures Assembled(first, data).header.payloadSize == |data| <==> |data| < 0x8000_0000
    ensures |data| <= maxPayload * 4 && maxPayload < 0x2000_0000 ==> |data| < 0x8000_0000
    ensures Assembled(first, data).header.Segment() == Whole
    ensures Assembled(first, data).header.command == first.command
    ensures Assembled(first, data).header.IsControl() == first.IsControl()
  {
    WithSegmentationSetsOnlySegmentation(first.(payloadSize := WrapI32(|data|)), Whole);
    WrapKeeps(|data|);
  }

  // -------------------------------------------------------------------------
  // The framer on raw bytes
  // -------------------------------------------------------------------------

  /** Eight header bytes: the fields by position, the size with the end that the flag byte calls for. */
  datatype RawHeader =
    RawHeader(magic: byte, version: byte, flags: byte, command: byte, a: byte, b: byte, c: byte, d: byte)
  {
    function Bytes(): seq<byte> {
      [magic, version, flags, command] + if flags < 0x80 then [a, b, c, d] else [d, c, b, a]
    }

    /** The signed size, its most significant byte being `d`. */
    function Size(): i32 {
      var u: int := a as int + 0x100 * b as int + 0x1_0000 * c as int + 0x100_0000 * d as int;
      if d < 0x80 then u else u - 0x1_0000_0000
    }
  }

  /** Where a message starts, what is said of its first eight bytes: nothing yet, which error, or how much is needed. */
  lemma ScanOnBytes(maxPayload: u32, r: RawHeader, tail: seq<byte>)
    ensures var s, n := Scan(maxPayload, r.Bytes() + tail), r.Size();
      var h := PvaHeader(r.version, r.flags, r.command, n);
      s == if r.magic != 0xCA then Malformed(BadMagic(r.magic))
           else if r.flags % 2 == 1 then Complete(PvaFrame(h, []), tail)
           else if n < 0 then Malformed(NegativePayload(n))
           else if n > maxPayload then Malformed(PayloadTooLarge(n))
           else if |tail| < n then Incomplete
           else Complete(PvaFrame(h, tail[..n]), tail[n..])
  {
    hide PvaHeader.Decode;
    HeaderOnBytes(r.magic, r.version, r.flags, r.command, r.a, r.b, r.c, r.d);
    var buf, n := r.Bytes() + tail, r.Size();
    assert buf[..8] == r.Bytes() && buf[8..] == tail;
    if 0 <= n <= |tail| {
      assert buf[8..8 + n] == tail[..n] && buf[8 + n..] == tail[n..];
    }
  }

  /** A digit of the flag byte says what becomes of a whole application message. */
  lemma AbsorbOnBytes(maxPayload: u32, segment: Option<SegmentBuffer>, m: PvaFrame)
    requires m.header.flags % 2 == 0
    ensures var seg := m.header.flags / 16 % 4;
      Absorb(maxPayload, segment, m)
        == if seg == 0 then Deliver(m, segment)
           else if seg == 1 then Hold(Some(SegmentBuffer(m.header, m.payload)))
           else if segment == None then Reject(UnexpectedSegment, None)
           else
             var whole := segment.value.data + m.payload;
             if |whole| > 4 * maxPayload then Reject(SegmentTooLarge, if seg == 2 then None else segment)
             else if seg == 3 then Hold(Some(SegmentBuffer(segment.value.header, whole)))
             else Deliver(PvaFrame(segment.value.header.(flags := segment.value.header.flags / 64 * 64
                                                                  + segment.value.header.flags % 16,
                                                         payloadSize := WrapI32(|whole|)), whole), None)
  {
    if segment.Some? {
      SixteenthsOf(segment.value.header.flags);
    }
  }

  lemma SixteenthsOf(flags: byte)
    ensures flags - flags / 16 % 4 * 16 == flags / 64 * 64 + flags % 16
  {
    assert flags / 64 == flags / 16 / 4;
  }

  /**
   * The next frame of any bytes that begin with a header, whatever is being assembled: a
   * message without the magic byte, with a negative size or with a size beyond the limit is
   * the error it should be and nothing is taken; an odd flag byte takes eight bytes and no
   * payload; otherwise more bytes are asked for exactly while the payload is incomplete, and
   * then its segmentation digit decides.
   */
  lemma PullOnBytes(maxPayload: u32, segment: Option<SegmentBuffer>, r: RawHeader, tail: seq<byte>)
    ensures var p, buf, n := Pull(maxPayload, segment, r.Bytes() + tail), r.Bytes() + tail, r.Size();
      var h := PvaHeader(r.version, r.flags, r.command, n);
      && (r.magic != 0xCA ==> p == Pulled(Err(BadMagic(r.magic)), segment, buf))
      && (r.magic == 0xCA && r.flags % 2 == 1 ==> p == Pulled(Ok(Some(PvaFrame(h, []))), segment, tail))
      && (r.magic == 0xCA && r.flags % 2 == 0 ==>
            && (n < 0 ==> p == Pulled(Err(NegativePayload(n)), segment, buf))
            && (n > maxPayload ==> p == Pulled(Err(PayloadTooLarge(n)), segment, buf))
            && (|tail| < n <= maxPayload ==> p == Pulled(Ok(None), segment, buf))
            && (0 <= n <= maxPayload && n <= |tail| ==>
                  var payload, rest, seg := tail[..n], tail[n..], r.flags / 16 % 4;
                  && (seg == 0 ==> p == Pulled(Ok(Some(PvaFrame(h, payload))), segment, rest))
                  && (seg == 1 ==> p == Pull(maxPayload, Some(SegmentBuffer(h, payload)), rest))
                  && (seg >= 2 && segment == None ==> p == Pulled(Err(UnexpectedSegment), None, rest))
                  && (seg >= 2 && segment.Some? && |segment.value.data| + n > 4 * maxPayload ==>
                        p == Pulled(Err(SegmentTooLarge), if seg == 2 then None else segment, rest))
                  && (seg == 3 && segment.Some? && |segment.value.data| + n <= 4 * maxPayload ==>
                        p == Pull(maxPayload, Some(segment.value.(data := segment.value.data + payload)), rest))
                  && (seg == 2 && segment.Some? && |segment.value.data| + n <= 4 * maxPayload ==>
                        && p.outcome.Ok? && p.outcome.value.Some? && p.segment == None && p.rest == rest
                        && p.outcome.value.value.payload == segment.value.data + payload)))
  {
    hide Scan, Absorb;
    ScanOnBytes(maxPayload, r, tail);
    var n := r.Size();
    if r.flags % 2 == 1 {
      var m := PvaFrame(PvaHeader(r.version, r.flags, r.command, n), []);
      FlagReadings(m.header, r.flags / 128, r.flags / 64 % 2, r.flags / 16 % 4, r.flags % 16);
      AbsorbPassing(maxPayload, segment, m);
    } else if 0 <= n <= |tail| {
      AbsorbOnBytes(maxPayload, segment, PvaFrame(PvaHeader(r.version, r.flags, r.command, n), tail[..n]));
    }
  }

  /** Fewer than eight bytes are always too few, and every eight bytes are those of a header. */
  lemma ShortOrHeader(maxPayload: u32, segment: Option<SegmentBuffer>, buf: seq<byte>)
    ensures |buf| < 8 ==> Pull(maxPayload, segment, buf) == Pulled(Ok(None), segment, buf)
    ensures |buf| >= 8 ==> exists r: RawHeader :: r.Bytes() == buf[..8]
  {
    if |buf| >= 8 {
      var r := if buf[2] < 0x80 then RawHeader(buf[0], buf[1], buf[2], buf[3], buf[4], buf[5], buf[6], buf[7])
               else RawHeader(buf[0], buf[1], buf[2], buf[3], buf[7], buf[6], buf[5], buf[4]);
      assert r.Bytes() == buf[..8];
    }
  }

  // -------------------------------------------------------------------------
  // What can come out, whatever goes in
  // -------------------------------------------------------------------------

  predicate Bounded(maxPayload: u32, segment: Option<SegmentBuffer>) {
    segment.Some? ==> |segment.value.data| <= maxPayload * 4 && !segment.value.header.IsControl()
  }

  /** A delivered frame: bare control, or unsegmented with at most four payloads of data. */
  predicate Deliverable(maxPayload: u32, f: PvaFrame) {
    if f.header.IsControl() then f.payload == []
    else f.header.Segment() == Whole && |f.payload| <= maxPayload * 4
         && f.header.payloadSize == WrapI32(|f.payload|)
  }

  lemma {:induction false} PullIsBounded(maxPayload: u32, segment: Option<SegmentBuffer>, buf: seq<byte>)
    requires Bounded(maxPayload, segment)
    ensures var p := Pull(maxPayload, segment, buf);
      && Bounded(maxPayload, p.segment)
      && (p.outcome.Ok? && p.outcome.value.Some? ==> Deliverable(maxPayload, p.outcome.value.value))
    decreases |buf|
  {
    var s := Scan(maxPayload, buf);
    if s.Complete? {
      match Absorb(maxPayload, segment, s.message)
      case Deliver(f, _) =>
        if !Passes(s.message) {
          AssembledSize(maxPayload, segment.value.header, f.payload);
        } else if !s.message.header.IsControl() {
          WrapKeeps(|f.payload|);
        }
      case Hold(segment') =>
        PullIsBounded(maxPayload, segment', s.rest);
      case Reject(_, _) =>
    }
  }

  /** Over any input, only deliverable frames come out and the assembly buffer stays bounded. */
  lemma {:induction false} DrainIsBounded(maxPayload: u32, segment: Option<SegmentBuffer>, buf: seq<byte>)
    requires Bounded(maxPayload, segment)
    ensures var d := Drain(maxPayload, segment, buf);
      && Bounded(maxPayload, d.segment)
      && (forall f | f in d.frames :: Deliverable(maxPayload, f))
    decreases |buf|
  {
    PullIsBounded(maxPayload, segment, buf);
    var p := Pull(maxPayload, segment, buf);
    if p.outcome.Ok? && p.outcome.value.Some? {
      DrainIsBounded(maxPayload, p.segment, p.rest);
    }
  }

  // -------------------------------------------------------------------------
  // The machine
  // -------------------------------------------------------------------------

  /** The receive buffer: bytes are appended at the back and taken from the front. */
  class BytesMut {
    var data: seq<byte>

    constructor ()
      ensures data == []
    {
      data := [];
    }

    method Extend(bytes: seq<byte>)
      modifies this
      ensures data == old(data) + bytes
    {
      data := data + bytes;
    }

    method SplitTo(n: nat) returns (front: seq<byte>)
      requires n <= |data|
      modifies this
      ensures front == old(data)[..n] && data == old(data)[n..]
    {
      front := data[..n];
      data := data[n..];
    }
  }

  datatype DecodeState = AwaitHeader | AwaitPayload(header: PvaHeader)

  class PvaCodec {
    const maxPayload: u32
    var state: DecodeState
    var segmentBuf: Option<SegmentBuffer>
    var totalBytes: nat
    var totalFrames: nat

    constructor (maxPayload: u32)
      ensures this.maxPayload == maxPayload
      ensures state == AwaitHeader && segmentBuf == None && totalBytes == 0 && totalFrames == 0
    {
      this.maxPayload := maxPayload;
      state, segmentBuf, totalBytes, totalFrames := AwaitHeader, None, 0, 0;
    }

    /** A remembered header is still the front of the buffer, and was found acceptable. */
    ghost predicate Synced(src: BytesMut)
      reads this, src
    {
      state.AwaitPayload? ==>
        && |src.data| >= HEADER_SIZE
        && PvaHeader.Decode(src.data[..HEADER_SIZE]) == Some(state.header)
        && !state.header.IsControl()
        && 0 <= state.header.payloadSize <= maxPayload
    }

    /** The header step; None means that an application header was accepted. */
    method TakeHeader(src: BytesMut) returns (done: Option<Outcome>)
      requires state.AwaitHeader?
      modifies this`state, this`totalBytes, this`totalFrames, src
      ensures Synced(src)
      ensures done.None? ==>
        state.AwaitPayload? && src.data == old(src.data) && totalBytes == old(totalBytes) && totalFrames == old(totalFrames)
      ensures done.Some? ==>
        && Pulled(done.value, segmentBuf, src.data) == Pull(maxPayload, segmentBuf, old(src.data))
        && totalBytes + |src.data| == old(totalBytes + |src.data|)
        && totalFrames == old(totalFrames) + if done.value.Ok? && done.value.value.Some? then 1 else 0
    {
      if |src.data| < HEADER_SIZE {
        return Some(Ok(None));
      }
      var decoded := PvaHeader.Decode(src.data[..HEADER_SIZE]);
      if decoded.None? {
        return Some(Err(BadMagic(src.data[0])));
      }
      var header := decoded.value;
      if header.IsControl() {
        AbsorbPassing(maxPayload, segmentBuf, PvaFrame(header, []));
        var _ := src.SplitTo(HEADER_SIZE);
        totalBytes := totalBytes + HEADER_SIZE;
        totalFrames := totalFrames + 1;
        return Some(Ok(Some(PvaFrame(header, []))));
      }
      if header.payloadSize < 0 {
        return Some(Err(NegativePayload(header.payloadSize)));
      }
      if header.payloadSize > maxPayload {
        return Some(Err(PayloadTooLarge(header.payloadSize)));
      }
      state := AwaitPayload(header);
      return None;
    }

    /** The segmentation step; None means that more messages are needed. */
    method TakeMessage(header: PvaHeader, payload: seq<byte>) returns (done: Option<Outcome>)
      requires !header.IsControl()
      modifies this`segmentBuf, this`totalFrames
      ensures match Absorb(maxPayload, old(segmentBuf), PvaFrame(header, payload))
        case Deliver(f, segment) =>
          done == Some(Ok(Some(f))) && segmentBuf == segment && totalFrames == old(totalFrames) + 1
        case Hold(segment) =>
          done == None && segmentBuf == segment && totalFrames == old(totalFrames)
        case Reject(e, segment) =>
          done == Some(Err(e)) && segmentBuf == segment && totalFrames == old(totalFrames)
    {
      match header.Segment()
      case Whole =>
        totalFrames := totalFrames + 1;
        return Some(Ok(Some(PvaFrame(header, payload))));
      case First =>
        segmentBuf := Some(SegmentBuffer(header, payload));
        return None;
      case Middle =>
        if segmentBuf.None? {
          return Some(Err(UnexpectedSegment));
        }
        if |segmentBuf.value.data| + |payload| > maxPayload * 4 {
          return Some(Err(SegmentTooLarge));
        }
        segmentBuf := Some(segmentBuf.value.(data := segmentBuf.value.data + payload));
        return None;
      case Last =>
        var taken := segmentBuf;
        segmentBuf := None;
        if taken.None? {
          return Some(Err(UnexpectedSegment));
        }
        if |taken.value.data| + |payload| > maxPayload * 4 {
          return Some(Err(SegmentTooLarge));
        }
        totalFrames := totalFrames + 1;
        return Some(Ok(Some(Assembled(taken.value.header, taken.value.data + payload))));
    }

    /** The payload step; None means that a segment was put away and the next header is due. */
    method TakePayload(src: BytesMut) returns (done: Option<Outcome>)
      requires state.AwaitPayload? && Synced(src)
      modifies this, src
      ensures Synced(src)
      ensures totalBytes + |src.data| == old(totalBytes + |src.data|)
      ensures match done
        case None =>
          && state.AwaitHeader? && |src.data| < |old(src.data)| && totalFrames == old(totalFrames)
          && Pull(maxPayload, segmentBuf, src.data) == Pull(maxPayload, old(segmentBuf), old(src.data))
        case Some(r) =>
          && Pulled(r, segmentBuf, src.data) == Pull(maxPayload, old(segmentBuf), old(src.data))
          && totalFrames == old(totalFrames) + if r.Ok? && r.value.Some? then 1 else 0
    {
      var header := state.header;
      var psize: nat := header.payloadSize;
      var needed := HEADER_SIZE + psize;
      if |src.data| < needed {
        return Some(Ok(None));
      }
      var _ := src.SplitTo(HEADER_SIZE);
      var payload := src.SplitTo(psize);
      totalBytes := totalBytes + needed;
      state := AwaitHeader;
      assert Scan(maxPayload, old(src.data)) == Complete(PvaFrame(header, payload), src.data) by {
        assert payload == old(src.data)[HEADER_SIZE..needed] && src.data == old(src.data)[needed..];
      }
      done := TakeMessage(header, payload);
    }

    method DecodeFrame(src: BytesMut) returns (r: Outcome)
      requires Synced(src) && Bounded(maxPayload, segmentBuf)
      modifies this, src
      ensures Synced(src) && Bounded(maxPayload, segmentBuf)
      ensures Pulled(r, segmentBuf, src.data) == Pull(maxPayload, old(segmentBuf), old(src.data))
      ensures totalBytes + |src.data| == old(totalBytes + |src.data|)
      ensures totalFrames == old(totalFrames) + if r.Ok? && r.value.Some? then 1 else 0
    {
      PullIsBounded(maxPayload, segmentBuf, src.data);
      while true
        invariant Synced(src)
        invariant Pull(maxPayload, segmentBuf, src.data) == Pull(maxPayload, old(segmentBuf), old(src.data))
        invariant totalBytes + |src.data| == old(totalBytes + |src.data|)
        invariant totalFrames == old(totalFrames)
        decreases |src.data|, state.AwaitHeader?
      {
        var done: Option<Outcome>;
        if state.AwaitHeader? {
          done := TakeHeader(src);
        } else {
          done := TakePayload(src);
        }
        if done.Some? {
          return done.value;
        }
      }
    }

    method EncodeFrame(frame: PvaFrame, dst: BytesMut)
      modifies dst
      ensures dst.data == old(dst.data) + WireOf(frame)
    {
      dst.Extend(frame.header.Encode());
      if frame.payload != [] {
        dst.Extend(frame.payload);
      }
    }
  }

  /** Take frames until none is complete or one is malformed. */
  method TakeFrames(codec: PvaCodec, src: BytesMut) returns (frames: seq<PvaFrame>, error: Option<CodecError>)
    requires codec.Synced(src) && Bounded(codec.maxPayload, codec.segmentBuf)
    modifies codec, src
    ensures codec.Synced(src) && Bounded(codec.maxPayload, codec.segmentBuf)
    ensures Drained(frames, error, codec.segmentBuf, src.data)
         == Drain(codec.maxPayload, old(codec.segmentBuf), old(src.data))
    ensures codec.totalFrames == old(codec.totalFrames) + |frames|
    ensures codec.totalBytes + |src.data| == old(codec.totalBytes + |src.data|)
  {
    ghost var whole := Drain(codec.maxPayload, codec.segmentBuf, src.data);
    frames, error := [], None;
    while true
      invariant codec.Synced(src) && Bounded(codec.maxPayload, codec.segmentBuf)
      invariant whole == Drain(codec.maxPayload, codec.segmentBuf, src.data).After(frames)
      invariant codec.totalFrames == old(codec.totalFrames) + |frames|
      invariant codec.totalBytes + |src.data| == old(codec.totalBytes + |src.data|)
      decreases |src.data|
    {
      var r := codec.DecodeFrame(src);
      match r
      case Err(e) =>
        error := Some(e);
        return;
      case Ok(None) =>
        return;
      case Ok(Some(f)) =>
        AfterAfter(Drain(codec.maxPayload, codec.segmentBuf, src.data), frames, [f]);
        frames := frames + [f];
    }
  }

  /**
   * The receive loop: append each arriving chunk, then take frames until none is
   * complete. Whatever the chunks, it sees the frames and the error of the whole
   * byte string.
   */
  method Receive(codec: PvaCodec, src: BytesMut, chunks: seq<seq<byte>>)
      returns (frames: seq<PvaFrame>, error: Option<CodecError>)
    requires codec.Synced(src) && Bounded(codec.maxPayload, codec.segmentBuf)
    requires Quiescent(codec.maxPayload, codec.segmentBuf, src.data)
    modifies codec, src
    ensures codec.Synced(src) && Bounded(codec.maxPayload, codec.segmentBuf)
    ensures var whole := Drain(codec.maxPayload, old(codec.segmentBuf), old(src.data) + Flatten(chunks));
      && frames == whole.frames
      && error == whole.error
      && (error.None? ==> codec.segmentBuf == whole.segment && src.data == whole.rest)
    ensures codec.totalFrames == old(codec.totalFrames) + |frames|
  {
    hide Feed, Drain, Pull;
    ghost var fed := Feed(codec.maxPayload, codec.segmentBuf, src.data, chunks);
    ChunkingIsInvisible(codec.maxPayload, codec.segmentBuf, src.data, chunks);
    frames, error := [], None;
    var i := 0;
    while i < |chunks|
      invariant 0 <= i <= |chunks|
      invariant codec.Synced(src) && Bounded(codec.maxPayload, codec.segmentBuf)
      invariant error == None
      invariant fed == Feed(codec.maxPayload, codec.segmentBuf, src.data, chunks[i..]).After(frames)
      invariant codec.totalFrames == old(codec.totalFrames) + |frames|
    {
      assert chunks[i..][0] == chunks[i] && chunks[i..][1..] == chunks[i + 1..];
      FeedUnfolds(codec.maxPayload, codec.segmentBuf, src.data, chunks[i..], frames);
      src.Extend(chunks[i]);
      var more: seq<PvaFrame>;
      more, error := TakeFrames(codec, src);
      frames := frames + more;
      if error.Some? {
        assert fed.frames == frames;
        return;
      }
      i := i + 1;
    }
    FeedNothing(codec.maxPayload, codec.segmentBuf, src.data, frames);
    assert chunks[i..] == [];
    assert fed.frames == frames;
  }
}
