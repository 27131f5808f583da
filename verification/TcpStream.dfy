// Length-prefixed framing on a byte stream: `encode_tcp`, `decode_stream` and
// the Go splitter. Everything is stated for an arbitrary payload decoder, of
// which frame decoding and the splitter's plain copy are two instances.
module TcpStream {
  import opened Basics
  import opened Frames
  import FrameCodec
  import FrameWriter

  const LENGTH_PREFIX_BYTES: nat := 4

  datatype StreamError<+E> = OverLimit(length: nat) | BadPayload(error: E)

  type Pulled<F, E> = Result<(seq<F>, seq<Byte>), StreamError<E>>

  // --------------------------------------------------------------- prefix

  /** `(len as u32).to_be_bytes()`. */
  function BigEndian32(n: nat): (b: seq<Byte>)
    requires n < 0x1_0000_0000
    ensures |b| == LENGTH_PREFIX_BYTES
  {
    [n / 0x100_0000, n / 0x1_0000 % 256, n / 256 % 256, n % 256]
  }

  function Combine(a: int, b: int, c: int, d: int): int {
    a * 0x100_0000 + b * 0x1_0000 + c * 256 + d
  }

  function ReadBigEndian32(b: seq<Byte>): (n: nat)
    requires |b| >= LENGTH_PREFIX_BYTES
    ensures n < 0x1_0000_0000
  {
    Combine(b[0], b[1], b[2], b[3])
  }

  lemma BigEndianReadsBack(n: nat, tail: seq<Byte>)
    requires n < 0x1_0000_0000
    ensures ReadBigEndian32(BigEndian32(n) + tail) == n
  {
    var b := BigEndian32(n) + tail;
    assert n / 256 == n / 0x1_0000 * 256 + n / 256 % 256;
    assert n / 0x1_0000 == n / 0x100_0000 * 256 + n / 0x1_0000 % 256;
    assert b[0] == n / 0x100_0000 && b[1] == n / 0x1_0000 % 256 && b[2] == n / 256 % 256 && b[3] == n % 256;
  }

  lemma Digits(a: Byte, b: Byte, c: Byte, d: Byte, n: int)
    requires n == Combine(a, b, c, d)
    ensures n / 0x100_0000 == a && n / 0x1_0000 == a * 256 + b && n / 256 == a * 0x1_0000 + b * 256 + c
    ensures n / 0x1_0000 % 256 == b && n / 256 % 256 == c && n % 256 == d
  {}

  lemma BigEndianRebuilds(b: seq<Byte>)
    requires |b| >= LENGTH_PREFIX_BYTES
    ensures BigEndian32(ReadBigEndian32(b)) == b[..LENGTH_PREFIX_BYTES]
  {
    Digits(b[0], b[1], b[2], b[3], ReadBigEndian32(b));
    assert b[..4] == [b[0], b[1], b[2], b[3]];
  }

  function Prefixed(payload: seq<Byte>): seq<Byte>
    requires |payload| <= MAX_FRAME_BYTES
  {
    BigEndian32(|payload|) + payload
  }

  // -------------------------------------------------------------- pulling

  /** Every whole frame of a buffer in order, and what is left over. The first
      oversized length or undecodable payload is the whole answer. */
  function Pull<F, E>(decode: seq<Byte> -> Result<F, E>, buffer: seq<Byte>): Pulled<F, E>
    decreases |buffer|
  {
    if |buffer| < LENGTH_PREFIX_BYTES then Ok(([], buffer))
    else
      var length := ReadBigEndian32(buffer);
      if length > MAX_FRAME_BYTES then Err(OverLimit(length))
      else if |buffer| - LENGTH_PREFIX_BYTES < length then Ok(([], buffer))
      else
        Deliver(decode(buffer[LENGTH_PREFIX_BYTES..LENGTH_PREFIX_BYTES + length]),
                Pull(decode, buffer[LENGTH_PREFIX_BYTES + length..]))
  }

  function Deliver<F, E>(first: Result<F, E>, later: Pulled<F, E>): Pulled<F, E> {
    match first
    case Err(e) => Err(BadPayload(e))
    case Ok(frame) => Before([frame], later)
  }

  function Before<F, E>(frames: seq<F>, later: Pulled<F, E>): Pulled<F, E> {
    match later
    case Err(e) => Err(e)
    case Ok((more, rest)) => Ok((frames + more, rest))
  }

  // What the whole buffer holds, when these frames were read before `offset`.
  ghost predicate ReadSoFar<F, E>(decode: seq<Byte> -> Result<F, E>, buffer: seq<Byte>, frames: seq<F>, offset: nat) {
    offset <= |buffer| && Pull(decode, buffer) == Before(frames, Pull(decode, buffer[offset..]))
  }

  lemma NothingRead<F, E>(decode: seq<Byte> -> Result<F, E>, buffer: seq<Byte>)
    ensures ReadSoFar(decode, buffer, [], 0)
  {
    assert buffer[0..] == buffer;
    BeforeNothing(Pull(decode, buffer));
  }

  // What one turn of the loop comes to.
  datatype Turn<+F, +E> = Stop | Fail(error: StreamError<E>) | Next(frame: F, offset: nat)

  function TurnAt<F, E>(decode: seq<Byte> -> Result<F, E>, buffer: seq<Byte>, offset: nat): Turn<F, E>
    requires offset + LENGTH_PREFIX_BYTES <= |buffer|
  {
    var start := offset + LENGTH_PREFIX_BYTES;
    var length := ReadBigEndian32(buffer[offset..start]);
    if length > MAX_FRAME_BYTES then Fail(OverLimit(length))
    else if |buffer| - start < length then Stop
    else
      match decode(buffer[start..start + length])
      case Err(e) => Fail(BadPayload(e))
      case Ok(frame) => Next(frame, start + length)
  }

  // A turn at the front of a buffer.
  lemma PullTurn<F, E>(decode: seq<Byte> -> Result<F, E>, left: seq<Byte>, turn: Turn<F, E>)
    requires |left| >= LENGTH_PREFIX_BYTES && turn == TurnAt(decode, left, 0)
    ensures turn.Stop? ==> Pull(decode, left) == Ok(([], left))
    ensures turn.Fail? ==> Pull(decode, left) == Err(turn.error)
    ensures turn.Next? ==>
      0 < turn.offset <= |left| && Pull(decode, left) == Before([turn.frame], Pull(decode, left[turn.offset..]))
  {
    assert ReadBigEndian32(left) == ReadBigEndian32(left[0..0 + LENGTH_PREFIX_BYTES]);
  }

  // The same turn, seen from the whole buffer.
  lemma TurnFrom<F, E>(decode: seq<Byte> -> Result<F, E>, buffer: seq<Byte>, offset: nat)
    requires offset + LENGTH_PREFIX_BYTES <= |buffer|
    ensures var turn, own := TurnAt(decode, buffer, offset), TurnAt(decode, buffer[offset..], 0);
      if turn.Next? then own.Next? && own.frame == turn.frame && offset + own.offset == turn.offset
      else own == turn
  {
    var start := offset + LENGTH_PREFIX_BYTES;
    var left := buffer[offset..];
    assert left[0..LENGTH_PREFIX_BYTES] == buffer[offset..start];
    var length := ReadBigEndian32(buffer[offset..start]);
    if |buffer| - start >= length {
      assert left[LENGTH_PREFIX_BYTES..LENGTH_PREFIX_BYTES + length] == buffer[start..start + length];
    }
  }

  lemma TurnMeans<F, E>(decode: seq<Byte> -> Result<F, E>, buffer: seq<Byte>, frames: seq<F>, offset: nat,
      turn: Turn<F, E>)
    requires ReadSoFar(decode, buffer, frames, offset) && offset + LENGTH_PREFIX_BYTES <= |buffer|
    requires turn == TurnAt(decode, buffer, offset)
    ensures turn.Stop? ==> Pull(decode, buffer) == Ok((frames, buffer[offset..]))
    ensures turn.Fail? ==> Pull(decode, buffer) == Err(turn.error)
    ensures turn.Next? ==> offset < turn.offset && ReadSoFar(decode, buffer, frames + [turn.frame], turn.offset)
  {
    var left := buffer[offset..];
    TurnFrom(decode, buffer, offset);
    PullTurn(decode, left, TurnAt(decode, left, 0));
    match turn
    case Stop => NothingAfter<F, E>(frames, left);
    case Fail(_) =>
    case Next(frame, next) =>
      assert left[next - offset..] == buffer[next..];
      BeforeTwice(frames, [frame], Pull(decode, buffer[next..]));
  }

  lemma ReadToTheEnd<F, E>(decode: seq<Byte> -> Result<F, E>, buffer: seq<Byte>, frames: seq<F>, offset: nat)
    requires ReadSoFar(decode, buffer, frames, offset) && |buffer| - offset < LENGTH_PREFIX_BYTES
    ensures Pull(decode, buffer) == Ok((frames, buffer[offset..]))
  {
    NothingAfter<F, E>(frames, buffer[offset..]);
  }

  /** One turn of the loop: a frame, or the end of the reading. */
  method ReadFrame<F, E>(decode: seq<Byte> -> Result<F, E>, buffer: seq<Byte>, offset: nat) returns (turn: Turn<F, E>)
    requires offset + LENGTH_PREFIX_BYTES <= |buffer|
    ensures turn == TurnAt(decode, buffer, offset)
  {
    var start := offset + LENGTH_PREFIX_BYTES;
    var length := ReadBigEndian32(buffer[offset..start]);
    if length > MAX_FRAME_BYTES {
      return Fail(OverLimit(length));
    }
    if |buffer| - start < length {
      return Stop;
    }
    var frame := decode(buffer[start..start + length]);
    match frame
    case Err(e) => turn := Fail(BadPayload(e));
    case Ok(value) => turn := Next(value, start + length);
  }

  /** `decode_stream`: frames and the number of bytes consumed. */
  method DecodeStream<F, E>(decode: seq<Byte> -> Result<F, E>, buffer: seq<Byte>)
    returns (r: Result<(seq<F>, nat), StreamError<E>>)
    ensures r.Err? ==> Pull(decode, buffer) == Err(r.error)
    ensures r.Ok? ==> r.value.1 <= |buffer| && Pull(decode, buffer) == Ok((r.value.0, buffer[r.value.1..]))
  {
    var frames: seq<F> := [];
    var offset := 0;
    NothingRead(decode, buffer);
    while |buffer| - offset >= LENGTH_PREFIX_BYTES
      invariant ReadSoFar(decode, buffer, frames, offset)
    {
      var turn := ReadFrame(decode, buffer, offset);
      TurnMeans(decode, buffer, frames, offset, turn);
      match turn {
        case Fail(e) => return Err(e);
        case Stop => return Ok((frames, offset));
        case Next(frame, next) => frames, offset := frames + [frame], next;
      }
    }
    ReadToTheEnd(decode, buffer, frames, offset);
    r := Ok((frames, offset));
  }

  lemma NothingAfter<F, E>(frames: seq<F>, rest: seq<Byte>)
    ensures Before<F, E>(frames, Ok(([], rest))) == Ok((frames, rest))
  {
    assert frames + [] == frames;
  }

  lemma BeforeNothing<F, E>(later: Pulled<F, E>)
    ensures Before([], later) == later
  {
    if later.Ok? {
      assert [] + later.value.0 == later.value.0;
    }
  }

  lemma BeforeTwice<F, E>(a: seq<F>, b: seq<F>, later: Pulled<F, E>)
    ensures Before(a, Before(b, later)) == Before(a + b, later)
  {
    if later.Ok? {
      assert a + (b + later.value.0) == a + b + later.value.0;
    }
  }

  // ------------------------------------------------------------- chunking

  /** What a reader holds: the frames so far with the unread tail, or the
      first error. */
  function Feed<F, E>(decode: seq<Byte> -> Result<F, E>, state: Pulled<F, E>, chunk: seq<Byte>): Pulled<F, E> {
    match state
    case Err(e) => Err(e)
    case Ok((frames, rest)) => Before(frames, Pull(decode, rest + chunk))
  }

  function FeedAll<F, E>(decode: seq<Byte> -> Result<F, E>, state: Pulled<F, E>, chunks: seq<seq<Byte>>): Pulled<F, E>
    decreases |chunks|
  {
    if chunks == [] then state
    else FeedAll(decode, Feed(decode, state, chunks[0]), chunks[1..])
  }

  // Pulling a longer buffer is pulling its front and resuming from the tail.
  lemma {:induction false} PullAppend<F, E>(decode: seq<Byte> -> Result<F, E>, a: seq<Byte>, b: seq<Byte>)
    ensures Pull(decode, a + b) == Feed(decode, Pull(decode, a), b)
    decreases |a|
  {
    var whole := a + b;
    if |a| < LENGTH_PREFIX_BYTES {
      BeforeNothing(Pull(decode, whole));
    } else {
      var length := ReadBigEndian32(a);
      assert ReadBigEndian32(whole) == length;
      if length > MAX_FRAME_BYTES {
      } else if |a| - LENGTH_PREFIX_BYTES < length {
        BeforeNothing(Pull(decode, whole));
      } else {
        var cut := LENGTH_PREFIX_BYTES + length;
        assert whole[LENGTH_PREFIX_BYTES..cut] == a[LENGTH_PREFIX_BYTES..cut];
        assert whole[cut..] == a[cut..] + b;
        PullAppend(decode, a[cut..], b);
        var frame := decode(a[LENGTH_PREFIX_BYTES..cut]);
        if frame.Ok? && Pull(decode, a[cut..]).Ok? {
          var (frames, rest) := Pull(decode, a[cut..]).value;
          BeforeTwice([frame.value], frames, Pull(decode, rest + b));
        }
      }
    }
  }

  lemma FlattenStep(a: seq<Byte>, chunks: seq<seq<Byte>>)
    requires chunks != []
    ensures a + Flatten(chunks) == a + chunks[0] + Flatten(chunks[1..])
  {
    assert Flatten(chunks) == chunks[0] + Flatten(chunks[1..]);
  }

  lemma {:induction false} FeedAllFromAnywhere<F, E>(decode: seq<Byte> -> Result<F, E>, state: Pulled<F, E>,
      a: seq<Byte>, chunks: seq<seq<Byte>>)
    requires state == Pull(decode, a)
    ensures FeedAll(decode, state, chunks) == Pull(decode, a + Flatten(chunks))
    decreases |chunks|
  {
    if chunks == [] {
      assert a + Flatten(chunks) == a;
    } else {
      PullAppend(decode, a, chunks[0]);
      FeedAllFromAnywhere(decode, Feed(decode, state, chunks[0]), a + chunks[0], chunks[1..]);
      FlattenStep(a, chunks);
    }
  }

  // However a byte stream is cut into reads, carrying the unread tail along
  // gives the frames, the tail, or the first error of reading it whole.
  lemma ChunkingDoesNotMatter<F, E>(decode: seq<Byte> -> Result<F, E>, chunks: seq<seq<Byte>>)
    ensures FeedAll(decode, Ok(([], [])), chunks) == Pull(decode, Flatten(chunks))
  {
    FeedAllFromAnywhere(decode, Ok(([], [])), [], chunks);
    assert [] + Flatten(chunks) == Flatten(chunks);
  }

  // The tail a reader keeps is always shorter than one largest frame, and
  // holds no whole frame.
  lemma {:induction false} TailIsBounded<F, E>(decode: seq<Byte> -> Result<F, E>, buffer: seq<Byte>)
    requires Pull(decode, buffer).Ok?
    ensures var rest := Pull(decode, buffer).value.1;
      && |rest| < LENGTH_PREFIX_BYTES + MAX_FRAME_BYTES
      && Pull(decode, rest) == Ok(([], rest))
      && |rest| <= |buffer| && buffer[|buffer| - |rest|..] == rest
    decreases |buffer|
  {
    if |buffer| >= LENGTH_PREFIX_BYTES && |buffer| - LENGTH_PREFIX_BYTES >= ReadBigEndian32(buffer) {
      TailIsBounded(decode, buffer[LENGTH_PREFIX_BYTES + ReadBigEndian32(buffer)..]);
    }
  }

  // ------------------------------------------------- writing then reading

  ghost predicate AllDecode<F, E>(decode: seq<Byte> -> Result<F, E>, payloads: seq<seq<Byte>>, frames: seq<F>) {
    && |payloads| == |frames|
    && forall i :: 0 <= i < |payloads| ==>
         |payloads[i]| <= MAX_FRAME_BYTES && decode(payloads[i]) == Ok(frames[i])
  }

  function PrefixedAll(payloads: seq<seq<Byte>>): seq<Byte>
    requires forall i :: 0 <= i < |payloads| ==> |payloads[i]| <= MAX_FRAME_BYTES
  {
    if payloads == [] then [] else Prefixed(payloads[0]) + PrefixedAll(payloads[1..])
  }

  lemma PullOne<F, E>(decode: seq<Byte> -> Result<F, E>, payload: seq<Byte>, tail: seq<Byte>)
    requires |payload| <= MAX_FRAME_BYTES
    ensures Pull(decode, Prefixed(payload) + tail)
         == Deliver(decode(payload), Pull(decode, tail))
  {
    var prefix := BigEndian32(|payload|);
    var buffer := Prefixed(payload) + tail;
    assert buffer == prefix + (payload + tail);
    BigEndianReadsBack(|payload|, payload + tail);
    assert buffer[LENGTH_PREFIX_BYTES..LENGTH_PREFIX_BYTES + |payload|] == payload;
    assert buffer[LENGTH_PREFIX_BYTES + |payload|..] == tail;
  }

  lemma {:induction false} PullsWhatWasWritten<F, E>(decode: seq<Byte> -> Result<F, E>,
      payloads: seq<seq<Byte>>, frames: seq<F>, tail: seq<Byte>)
    requires AllDecode(decode, payloads, frames)
    ensures Pull(decode, PrefixedAll(payloads) + tail) == Before(frames, Pull(decode, tail))
  {
    if payloads == [] {
      assert PrefixedAll(payloads) + tail == tail;
      BeforeNothing(Pull(decode, tail));
    } else {
      var later := PrefixedAll(payloads[1..]) + tail;
      assert PrefixedAll(payloads) + tail == Prefixed(payloads[0]) + later;
      PullOne(decode, payloads[0], later);
      PullsWhatWasWritten(decode, payloads[1..], frames[1..], tail);
      BeforeTwice([frames[0]], frames[1..], Pull(decode, tail));
      assert [frames[0]] + frames[1..] == frames;
    }
  }

  // A frame cut short anywhere is left alone.
  lemma PartialFrameWaits<F, E>(decode: seq<Byte> -> Result<F, E>, payload: seq<Byte>, k: nat)
    requires |payload| <= MAX_FRAME_BYTES && k < |Prefixed(payload)|
    ensures Pull(decode, Prefixed(payload)[..k]) == Ok(([], Prefixed(payload)[..k]))
  {
    var part := Prefixed(payload)[..k];
    if k >= LENGTH_PREFIX_BYTES {
      BigEndianReadsBack(|payload|, payload[..k - LENGTH_PREFIX_BYTES]);
      assert part == BigEndian32(|payload|) + payload[..k - LENGTH_PREFIX_BYTES];
    }
  }

  // ------------------------------------------------------------- splitter

  function Copy(payload: seq<Byte>): Result<seq<Byte>, ()> { Ok(payload) }

  /** `SplitLengthPrefixed`: payloads as they are, and the tail. */
  method SplitLengthPrefixed(buffer: seq<Byte>) returns (r: Pulled<seq<Byte>, ()>)
    ensures r == Pull(Copy, buffer)
  {
    var pulled := DecodeStream(Copy, buffer);
    match pulled
    case Err(e) => r := Err(e);
    case Ok((frames, consumed)) => r := Ok((frames, buffer[consumed..]));
  }

  // The payloads under their prefixes, then the tail, are the buffer.
  ghost predicate Rebuilds(payloads: seq<seq<Byte>>, rest: seq<Byte>, buffer: seq<Byte>) {
    && (forall i :: 0 <= i < |payloads| ==> |payloads[i]| <= MAX_FRAME_BYTES)
    && PrefixedAll(payloads) + rest == buffer
  }

  lemma RebuildsOneMore(payloads: seq<seq<Byte>>, rest: seq<Byte>, first: seq<Byte>, later: seq<Byte>)
    requires |first| <= MAX_FRAME_BYTES && Rebuilds(payloads, rest, later)
    ensures Rebuilds([first] + payloads, rest, Prefixed(first) + later)
  {
    assert ([first] + payloads)[1..] == payloads;
    assert PrefixedAll([first] + payloads) + rest == Prefixed(first) + (PrefixedAll(payloads) + rest);
  }

  lemma FrontRebuilds(buffer: seq<Byte>, first: seq<Byte>, later: seq<Byte>)
    requires |buffer| >= LENGTH_PREFIX_BYTES && |buffer| - LENGTH_PREFIX_BYTES >= ReadBigEndian32(buffer)
    requires ReadBigEndian32(buffer) <= MAX_FRAME_BYTES
    requires first == buffer[LENGTH_PREFIX_BYTES..LENGTH_PREFIX_BYTES + ReadBigEndian32(buffer)]
    requires later == buffer[LENGTH_PREFIX_BYTES + ReadBigEndian32(buffer)..]
    ensures buffer == Prefixed(first) + later
  {
    BigEndianRebuilds(buffer);
    assert buffer == buffer[..LENGTH_PREFIX_BYTES] + first + later;
  }

  // Splitting loses nothing.
  lemma {:induction false} SplitIsLossless(buffer: seq<Byte>)
    requires Pull(Copy, buffer).Ok?
    ensures Rebuilds(Pull(Copy, buffer).value.0, Pull(Copy, buffer).value.1, buffer)
    decreases |buffer|
  {
    if |buffer| < LENGTH_PREFIX_BYTES || |buffer| - LENGTH_PREFIX_BYTES < ReadBigEndian32(buffer) {
      assert PrefixedAll([]) + buffer == buffer;
    } else {
      var length := ReadBigEndian32(buffer);
      var first := buffer[LENGTH_PREFIX_BYTES..LENGTH_PREFIX_BYTES + length];
      var later := buffer[LENGTH_PREFIX_BYTES + length..];
      assert Pull(Copy, buffer) == Before([first], Pull(Copy, later));
      SplitIsLossless(later);
      FrontRebuilds(buffer, first, later);
      RebuildsOneMore(Pull(Copy, later).value.0, Pull(Copy, later).value.1, first, later);
    }
  }

  // `p` is `q` with every payload decoded: it succeeds exactly when `q` does
  // and every payload decodes.
  ghost predicate Decodes<F, E>(decode: seq<Byte> -> Result<F, E>, p: Pulled<F, E>, q: Pulled<seq<Byte>, ()>) {
    && (p.Ok? <==> q.Ok? && forall i :: 0 <= i < |q.value.0| ==> decode(q.value.0[i]).Ok?)
    && (p.Ok? ==>
          && p.value.1 == q.value.1 && |p.value.0| == |q.value.0|
          && forall i :: 0 <= i < |p.value.0| ==> decode(q.value.0[i]) == Ok(p.value.0[i]))
  }

  lemma DecodesOneMore<F, E>(decode: seq<Byte> -> Result<F, E>, first: seq<Byte>,
      p: Pulled<F, E>, q: Pulled<seq<Byte>, ()>)
    requires Decodes(decode, p, q)
    ensures Decodes(decode, Deliver(decode(first), p), Deliver(Copy(first), q))
  {
    if q.Ok? {
      var payloads, all := q.value.0, [first] + q.value.0;
      assert Deliver(Copy(first), q) == Ok((all, q.value.1));
      assert all[0] == first;
      forall i | 1 <= i < |all| ensures all[i] == payloads[i - 1] {}
      if p.Err? {
        var i :| 0 <= i < |payloads| && decode(payloads[i]).Err?;
        assert all[i + 1] == payloads[i];
      } else if decode(first).Ok? {
        var frames := [decode(first).value] + p.value.0;
        assert Deliver(decode(first), p) == Ok((frames, p.value.1));
        forall i | 0 <= i < |frames| ensures decode(all[i]) == Ok(frames[i]) {
          assert i > 0 ==> frames[i] == p.value.0[i - 1];
        }
      }
    }
  }

  // Decoding a stream is splitting it and decoding every payload.
  lemma {:induction false} DecodingRefinesSplitting<F, E>(decode: seq<Byte> -> Result<F, E>, buffer: seq<Byte>)
    ensures Decodes(decode, Pull(decode, buffer), Pull(Copy, buffer))
    decreases |buffer|
  {
    if |buffer| >= LENGTH_PREFIX_BYTES && ReadBigEndian32(buffer) <= MAX_FRAME_BYTES
       && |buffer| - LENGTH_PREFIX_BYTES >= ReadBigEndian32(buffer) {
      var cut := LENGTH_PREFIX_BYTES + ReadBigEndian32(buffer);
      DecodingRefinesSplitting(decode, buffer[cut..]);
      DecodesOneMore(decode, buffer[LENGTH_PREFIX_BYTES..cut], Pull(decode, buffer[cut..]), Pull(Copy, buffer[cut..]));
    }
  }

  // --------------------------------------------------------------- frames

  function FrameDecoder(depth: nat): seq<Byte> -> Result<Frame, FrameError> {
    (payload: seq<Byte>) => Decode(payload, depth)
  }

  function EncodeTcp(f: Frame): Result<seq<Byte>, FrameError> {
    match Encode(f)
    case Err(e) => Err(e)
    case Ok(payload) => Ok(Prefixed(payload))
  }

  /** `Frame::encode_tcp`. */
  method EncodeTcpFrame(f: Frame) returns (r: Result<seq<Byte>, FrameError>)
    ensures r == EncodeTcp(f)
    ensures r.Ok? ==> ReadBigEndian32(r.value) == |r.value| - LENGTH_PREFIX_BYTES
  {
    var payload := FrameWriter.EncodeFrame(f);
    if payload.Err? {
      return Err(payload.error);
    }
    BigEndianReadsBack(|payload.value|, payload.value);
    r := Ok(BigEndian32(|payload.value|) + payload.value);
  }

  // Frames a sender can produce and a receiver with this nesting limit reads.
  ghost predicate Sendable(frames: seq<Frame>, depth: nat) {
    forall i :: 0 <= i < |frames| ==> SendableFrame(frames[i], depth)
  }

  function CanonicalAll(frames: seq<Frame>): seq<Frame> {
    if frames == [] then [] else [Canonical(frames[0])] + CanonicalAll(frames[1..])
  }

  ghost function Wire(frames: seq<Frame>): seq<Byte>
    requires forall i :: 0 <= i < |frames| ==> Encode(frames[i]).Ok?
  {
    if frames == [] then [] else EncodeTcp(frames[0]).value + Wire(frames[1..])
  }

  ghost predicate SendableFrame(f: Frame, depth: nat) {
    FrameCodec.TypedFrame(f) && Encode(f).Ok? && FrameCodec.BodyDepth(f) < depth
  }

  lemma FrameArrives(f: Frame, depth: nat)
    requires depth >= 3 && SendableFrame(f, depth)
    ensures |Encode(f).value| <= MAX_FRAME_BYTES
    ensures FrameDecoder(depth)(Encode(f).value) == Ok(Canonical(f))
  {
    FrameCodec.DecodeEncode(f, depth);
  }

  ghost function Payloads(frames: seq<Frame>): (r: seq<seq<Byte>>)
    requires forall i :: 0 <= i < |frames| ==> Encode(frames[i]).Ok?
    ensures forall i :: 0 <= i < |r| ==> |r[i]| <= MAX_FRAME_BYTES
  {
    if frames == [] then [] else [Encode(frames[0]).value] + Payloads(frames[1..])
  }

  lemma {:induction false} WireIsPrefixed(frames: seq<Frame>)
    requires forall i :: 0 <= i < |frames| ==> Encode(frames[i]).Ok?
    ensures Wire(frames) == PrefixedAll(Payloads(frames))
  {
    if frames != [] {
      WireIsPrefixed(frames[1..]);
      assert Payloads(frames)[1..] == Payloads(frames[1..]);
    }
  }

  lemma {:induction false} FramesArrive(frames: seq<Frame>, depth: nat)
    requires depth >= 3 && Sendable(frames, depth)
    ensures AllDecode(FrameDecoder(depth), Payloads(frames), CanonicalAll(frames))
  {
    if frames != [] {
      FrameArrives(frames[0], depth);
      FramesArrive(frames[1..], depth);
      AllDecodeCons(FrameDecoder(depth), Encode(frames[0]).value, Canonical(frames[0]),
        Payloads(frames[1..]), CanonicalAll(frames[1..]));
    }
  }

  lemma AllDecodeCons<F, E>(decode: seq<Byte> -> Result<F, E>, p: seq<Byte>, f: F, ps: seq<seq<Byte>>, fs: seq<F>)
    requires |p| <= MAX_FRAME_BYTES && decode(p) == Ok(f) && AllDecode(decode, ps, fs)
    ensures AllDecode(decode, [p] + ps, [f] + fs)
  {}

  lemma PartArrives(last: Frame, k: nat, depth: nat)
    requires EncodeTcp(last).Ok? && k < |EncodeTcp(last).value|
    ensures var part := EncodeTcp(last).value[..k]; Pull(FrameDecoder(depth), part) == Ok(([], part))
  {
    PartialFrameWaits(FrameDecoder(depth), Encode(last).value, k);
  }

  // Reading concatenated frames and the beginning of one more returns exactly
  // those frames, `meta` in canonical order, and exactly that beginning.
  lemma StreamRoundTrip(frames: seq<Frame>, last: Frame, k: nat, depth: nat)
    requires depth >= 3 && Sendable(frames, depth)
    requires EncodeTcp(last).Ok? && k < |EncodeTcp(last).value|
    ensures var tail := EncodeTcp(last).value[..k];
      Pull(FrameDecoder(depth), Wire(frames) + tail) == Ok((CanonicalAll(frames), tail))
  {
    var tail := EncodeTcp(last).value[..k];
    WireIsPrefixed(frames);
    FramesArrive(frames, depth);
    PartArrives(last, k, depth);
    PullsWhatWasWritten(FrameDecoder(depth), Payloads(frames), CanonicalAll(frames), tail);
    assert CanonicalAll(frames) + [] == CanonicalAll(frames);
  }
}
