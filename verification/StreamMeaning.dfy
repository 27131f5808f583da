// What reading a buffer of length-prefixed payloads gives, without the reader
// (`decode_stream` in runtime/rust/frame.rs, runtime/go/frame.go).
module StreamMeaning {
  import opened Basics
  import opened TcpStream

  type Bytes = seq<Byte>

  /** The number in the first four bytes, most significant first. */
  function Announced(b: Bytes): nat
    requires |b| >= 4
  {
    16777216 * b[0] as int + 65536 * b[1] as int + 256 * b[2] as int + b[3] as int
  }

  /** An announced length and as many bytes. */
  predicate Whole(b: Bytes) {
    |b| >= 4 && Announced(b) <= 8388608 && |b| >= 4 + Announced(b)
  }

  /** Complete payloads behind their lengths, then the rest. */
  predicate Packed(buffer: Bytes, payloads: seq<Bytes>, rest: Bytes)
    decreases |payloads|
  {
    if payloads == [] then buffer == rest
    else
      && Whole(buffer) && payloads[0] == buffer[4..4 + Announced(buffer)]
      && Packed(buffer[4 + Announced(buffer)..], payloads[1..], rest)
  }

  ghost predicate Opened<F, E>(decode: Bytes -> Result<F, E>, payloads: seq<Bytes>, frames: seq<F>) {
    |payloads| == |frames| && forall i :: 0 <= i < |payloads| ==> decode(payloads[i]) == Ok(frames[i])
  }

  /** What reading comes to at `rest`, after these frames. */
  ghost predicate EndsAs<F, E>(decode: Bytes -> Result<F, E>, frames: seq<F>, rest: Bytes, result: Pulled<F, E>) {
    match result
    case Ok((read, tail)) =>
      read == frames && tail == rest && (|rest| >= 4 ==> Announced(rest) <= 8388608 && !Whole(rest))
    case Err(OverLimit(length)) => |rest| >= 4 && Announced(rest) == length && length > 8388608
    case Err(BadPayload(e)) => Whole(rest) && decode(rest[4..4 + Announced(rest)]) == Err(e)
  }

  ghost predicate ReadingIs<F, E>(decode: Bytes -> Result<F, E>, buffer: Bytes, payloads: seq<Bytes>, frames: seq<F>,
    rest: Bytes, result: Pulled<F, E>)
  {
    Packed(buffer, payloads, rest) && Opened(decode, payloads, frames) && EndsAs(decode, frames, rest, result)
  }

  lemma FirstPulled<F, E>(decode: Bytes -> Result<F, E>, buffer: Bytes)
    requires Whole(buffer)
    ensures Pull(decode, buffer)
      == Deliver(decode(buffer[4..4 + Announced(buffer)]), Pull(decode, buffer[4 + Announced(buffer)..]))
  {}

  lemma {:induction false} PullReads<F, E>(decode: Bytes -> Result<F, E>, buffer: Bytes)
    returns (payloads: seq<Bytes>, frames: seq<F>, rest: Bytes)
    ensures ReadingIs(decode, buffer, payloads, frames, rest, Pull(decode, buffer))
    decreases |buffer|
  {
    payloads, frames, rest := [], [], buffer;
    if Whole(buffer) {
      FirstPulled(decode, buffer);
      var payload := buffer[4..4 + Announced(buffer)];
      if decode(payload).Ok? {
        var more, later, left := PullReads(decode, buffer[4 + Announced(buffer)..]);
        payloads, frames, rest := [payload] + more, [decode(payload).value] + later, left;
        assert payloads[1..] == more;
      }
    }
  }

  lemma {:induction false} ReadsPull<F, E>(decode: Bytes -> Result<F, E>, buffer: Bytes, payloads: seq<Bytes>,
    frames: seq<F>, rest: Bytes, result: Pulled<F, E>)
    requires ReadingIs(decode, buffer, payloads, frames, rest, result)
    ensures Pull(decode, buffer) == result
    decreases |payloads|
  {
    if payloads == [] {
      if Whole(buffer) {
        FirstPulled(decode, buffer);
      }
    } else {
      FirstPulled(decode, buffer);
      var later := if result.Ok? then Ok((result.value.0[1..], rest)) else result;
      assert decode(payloads[0]) == Ok(frames[0]) && frames == [frames[0]] + frames[1..];
      forall i | 0 <= i < |payloads[1..]| ensures decode(payloads[1..][i]) == Ok(frames[1..][i]) {
        assert payloads[1..][i] == payloads[i + 1];
      }
      ReadsPull(decode, buffer[4 + Announced(buffer)..], payloads[1..], frames[1..], rest, later);
    }
  }

  // Reading gives the frames of the complete payloads and an incomplete rest,
  // or the first announced length over the limit, or the first payload's error.
  lemma PullIffReads<F, E>(decode: Bytes -> Result<F, E>, buffer: Bytes, result: Pulled<F, E>)
    ensures Pull(decode, buffer) == result
      <==> exists payloads, frames, rest :: ReadingIs(decode, buffer, payloads, frames, rest, result)
  {
    var payloads, frames, rest := PullReads(decode, buffer);
    if ps, fs, r :| ReadingIs(decode, buffer, ps, fs, r, result) {
      ReadsPull(decode, buffer, ps, fs, r, result);
    }
  }
}
