/** EdgeLink frames: a four-byte big-endian length and a payload, read back from a byte stream. */
module Framing {
  import opened Text
  import opened Utf8

  const MAX_FRAME_BYTES: nat := 16 * 1024 * 1024
  const HEADER_BYTES: nat := 4

  /** `u32::to_be_bytes`. */
  function Header(n: nat): (h: seq<byte>)
    requires n <= MAX_FRAME_BYTES
    ensures |h| == HEADER_BYTES && Length(h) == n
  {
    [(n / 0x100_0000) as byte, (n / 0x1_0000 % 0x100) as byte, (n / 0x100 % 0x100) as byte, (n % 0x100) as byte]
  }

  /** `u32::from_be_bytes`. */
  function Length(h: seq<byte>): nat
    requires |h| == HEADER_BYTES
  {
    h[0] as nat * 0x100_0000 + h[1] as nat * 0x1_0000 + h[2] as nat * 0x100 + h[3] as nat
  }

  datatype FrameError =
    | IncompleteHeader(actual: nat)
    | IncompleteFrame(expected: nat, actual: nat)
    | FrameTooLarge(size: nat)
    | InvalidJson
  datatype Decoded<M> = Ok(message: M) | Err(error: FrameError)

  /** How messages are serialized inside a frame. */
  datatype Codec<!M> = Codec(encode: M -> seq<byte>, decode: seq<byte> -> Option<M>)

  ghost predicate RoundTrips<M(!new)>(codec: Codec<M>) {
    forall m :: codec.decode(codec.encode(m)) == Some(m)
  }

  function FrameOf(payload: seq<byte>): seq<byte>
    requires |payload| <= MAX_FRAME_BYTES
  {
    Header(|payload|) + payload
  }

  /** `encode_edgelink_frame`. */
  method EncodeFrame<M>(codec: Codec<M>, m: M) returns (frame: Option<seq<byte>>)
    ensures frame.None? <==> |codec.encode(m)| > MAX_FRAME_BYTES
    ensures frame.Some? ==> frame.value == FrameOf(codec.encode(m))
  {
    var payload := codec.encode(m);
    if |payload| > MAX_FRAME_BYTES { return None; }
    var bytes: seq<byte> := [];
    bytes := bytes + Header(|payload|);
    bytes := bytes + payload;
    return Some(bytes);
  }

  /** `decode_edgelink_frame`. */
  function DecodeFrame<M>(codec: Codec<M>, frame: seq<byte>): Decoded<M> {
    if |frame| < HEADER_BYTES then Err(IncompleteHeader(|frame|))
    else
      var n := Length(frame[..HEADER_BYTES]);
      if n > MAX_FRAME_BYTES then Err(FrameTooLarge(n))
      else if |frame| - HEADER_BYTES < n then Err(IncompleteFrame(n, |frame| - HEADER_BYTES))
      else match codec.decode(frame[HEADER_BYTES..HEADER_BYTES + n])
        case Some(m) => Ok(m)
        case None => Err(InvalidJson)
  }

  /** Decoding a frame gives the message back, whatever follows it; every proper prefix is refused. */
  lemma FrameRoundTrip<M(!new)>(codec: Codec<M>, m: M, rest: seq<byte>, k: nat)
    requires RoundTrips(codec) && |codec.encode(m)| <= MAX_FRAME_BYTES && k < |FrameOf(codec.encode(m))|
    ensures DecodeFrame(codec, FrameOf(codec.encode(m)) + rest) == Ok(m)
    ensures DecodeFrame(codec, FrameOf(codec.encode(m))[..k]).Err?
  {
    var payload := codec.encode(m);
    var frame := FrameOf(payload);
    assert (frame + rest)[..HEADER_BYTES] == Header(|payload|);
    assert (frame + rest)[HEADER_BYTES..HEADER_BYTES + |payload|] == payload;
    if k >= HEADER_BYTES { assert frame[..k][..HEADER_BYTES] == Header(|payload|); }
  }

  // ----- reading a stream

  datatype Read<M> = End | Message(message: M, rest: seq<byte>) | Broken

  /** What one read of the stream gives. */
  function ReadOne<M>(codec: Codec<M>, stream: seq<byte>): (r: Read<M>)
    ensures r.Message? ==> |r.rest| < |stream|
  {
    if stream == [] then End
    else if |stream| < HEADER_BYTES then Broken
    else
      var n := Length(stream[..HEADER_BYTES]);
      if n > MAX_FRAME_BYTES || |stream| - HEADER_BYTES < n then Broken
      else match codec.decode(stream[HEADER_BYTES..HEADER_BYTES + n])
        case Some(m) => Message(m, stream[HEADER_BYTES + n..])
        case None => Broken
  }

  /** `read_optional_edgelink_message`: the first read yields between one and four header bytes, as
      the connection pleases; the rest of the header and the payload are read exactly. */
  method ReadMessage<M>(codec: Codec<M>, stream: seq<byte>, first: nat) returns (r: Read<M>)
    requires stream != [] ==> 1 <= first <= HEADER_BYTES && first <= |stream|
    ensures r == ReadOne(codec, stream)
  {
    if stream == [] { return End; }
    var header := stream[..first];
    if first < HEADER_BYTES {
      if |stream| < HEADER_BYTES { return Broken; }
      header := header + stream[first..HEADER_BYTES];
    }
    assert header == stream[..HEADER_BYTES];
    var n := Length(header);
    if n > MAX_FRAME_BYTES { return Broken; }
    if |stream| - HEADER_BYTES < n { return Broken; }
    var frame := header + stream[HEADER_BYTES..HEADER_BYTES + n];
    assert frame[..HEADER_BYTES] == header &&
      frame[HEADER_BYTES..HEADER_BYTES + n] == stream[HEADER_BYTES..HEADER_BYTES + n];
    match DecodeFrame(codec, frame) {
      case Ok(m) => return Message(m, stream[HEADER_BYTES + n..]);
      case Err(_) => return Broken;
    }
  }

  /** A whole frame within the limit stands at the front, and its payload decodes. */
  ghost predicate Starts<M>(codec: Codec<M>, stream: seq<byte>, payload: seq<byte>, m: M, rest: seq<byte>) {
    |payload| <= MAX_FRAME_BYTES && stream == FrameOf(payload) + rest && codec.decode(payload) == Some(m)
  }

  lemma ReadsFrame<M>(codec: Codec<M>, stream: seq<byte>) returns (payload: seq<byte>)
    requires ReadOne(codec, stream).Message?
    ensures var r := ReadOne(codec, stream); Starts(codec, stream, payload, r.message, r.rest)
  {
    var header := stream[..HEADER_BYTES];
    payload := stream[HEADER_BYTES..HEADER_BYTES + Length(header)];
    LengthFits(header);
    hide Header, Length;
    assert stream == header + payload + stream[HEADER_BYTES + |payload|..];
  }

  lemma ReadsWhole<M>(codec: Codec<M>, stream: seq<byte>, payload: seq<byte>, m: M, rest: seq<byte>)
    requires Starts(codec, stream, payload, m, rest)
    ensures ReadOne(codec, stream) == Message(m, rest)
  {
    var header := Header(|payload|);
    hide Header, Length;
    assert stream == header + payload + rest;
    assert stream[..HEADER_BYTES] == header;
    assert stream[HEADER_BYTES..HEADER_BYTES + |payload|] == payload;
    assert stream[HEADER_BYTES + |payload|..] == rest;
  }

  /** MAIN: a read yields a message exactly when a whole frame within the limit stands at the front
      and its payload decodes, and only an empty stream is an end. */
  lemma ReadsExactly<M(!new)>(codec: Codec<M>, stream: seq<byte>, m: M, rest: seq<byte>)
    ensures ReadOne(codec, stream) == Message(m, rest) <==>
              exists payload :: Starts(codec, stream, payload, m, rest)
    ensures ReadOne(codec, stream) == End <==> stream == []
  {
    hide Starts, Length;
    if ReadOne(codec, stream) == Message(m, rest) { var payload := ReadsFrame(codec, stream); }
    if payload :| Starts(codec, stream, payload, m, rest) { ReadsWhole(codec, stream, payload, m, rest); }
  }

  /** A length above the limit is refused, however much follows. */
  lemma TooLargeIsRefused<M>(codec: Codec<M>, header: seq<byte>, rest: seq<byte>)
    requires |header| == HEADER_BYTES && Length(header) > MAX_FRAME_BYTES
    ensures ReadOne(codec, header + rest) == Broken
    ensures DecodeFrame(codec, header + rest) == Err(FrameTooLarge(Length(header)))
  {
    assert (header + rest)[..HEADER_BYTES] == header;
  }

  /** Every header is that of its length. */
  lemma LengthFits(header: seq<byte>)
    requires |header| == HEADER_BYTES && Length(header) <= MAX_FRAME_BYTES
    ensures Header(Length(header)) == header
  {
    var a, b, c, d := header[0] as nat, header[1] as nat, header[2] as nat, header[3] as nat;
    var n := Length(header);
    assert n / 0x100_0000 == a;
    assert n / 0x1_0000 == a * 0x100 + b;
    assert n / 0x100 == a * 0x1_0000 + b * 0x100 + c;
  }

  /** All messages up to the end of the stream, and whether it ended between frames. */
  function ReadAll<M>(codec: Codec<M>, stream: seq<byte>): (seq<M>, bool)
    decreases |stream|
  {
    match ReadOne(codec, stream)
    case End => ([], true)
    case Broken => ([], false)
    case Message(m, rest) => var (messages, ok) := ReadAll(codec, rest); ([m] + messages, ok)
  }

  /** The reader loop. `splits` says how many header bytes each first read yields. */
  method ReadLoop<M>(codec: Codec<M>, stream: seq<byte>, splits: nat -> nat) returns (messages: seq<M>, ok: bool)
    ensures (messages, ok) == ReadAll(codec, stream)
  {
    messages, ok := [], true;
    var rest, round := stream, 0;
    assert messages + ReadAll(codec, rest).0 == ReadAll(codec, rest).0;
    while true
      invariant ReadAll(codec, stream) == (messages + ReadAll(codec, rest).0, ReadAll(codec, rest).1)
      decreases |rest|
    {
      var most := if |rest| < HEADER_BYTES then |rest| else HEADER_BYTES;
      var first := if splits(round) < 1 then 1 else if splits(round) > most then most else splits(round);
      var r := ReadMessage(codec, rest, first);
      match r {
        case End =>
          assert messages + [] == messages;
          return;
        case Broken =>
          assert messages + [] == messages;
          ok := false;
          return;
        case Message(m, after) =>
          assert messages + ([m] + ReadAll(codec, after).0) == messages + [m] + ReadAll(codec, after).0;
          messages, rest, round := messages + [m], after, round + 1;
      }
    }
  }

  // ----- round trip

  ghost predicate Fit<M>(codec: Codec<M>, messages: seq<M>) {
    forall i :: 0 <= i < |messages| ==> |codec.encode(messages[i])| <= MAX_FRAME_BYTES
  }

  ghost function Frames<M>(codec: Codec<M>, messages: seq<M>): seq<byte>
    requires Fit(codec, messages)
  {
    if messages == [] then [] else FrameOf(codec.encode(messages[0])) + Frames(codec, messages[1..])
  }

  lemma ReadsFirst<M(!new)>(codec: Codec<M>, m: M, rest: seq<byte>)
    requires RoundTrips(codec) && |codec.encode(m)| <= MAX_FRAME_BYTES
    ensures ReadOne(codec, FrameOf(codec.encode(m)) + rest) == Message(m, rest)
  {
    var payload := codec.encode(m);
    var stream := FrameOf(payload) + rest;
    assert stream[..HEADER_BYTES] == Header(|payload|);
    assert stream[HEADER_BYTES..HEADER_BYTES + |payload|] == payload;
    assert stream[HEADER_BYTES + |payload|..] == rest;
  }

  /** MAIN: reading the frames of any list of messages gives exactly that list. */
  lemma {:induction false} StreamRoundTrip<M(!new)>(codec: Codec<M>, messages: seq<M>)
    requires RoundTrips(codec) && Fit(codec, messages)
    ensures ReadAll(codec, Frames(codec, messages)) == (messages, true)
  {
    if messages != [] {
      ReadsFirst(codec, messages[0], Frames(codec, messages[1..]));
      StreamRoundTrip(codec, messages[1..]);
      assert messages == [messages[0]] + messages[1..];
    }
  }

  lemma ReadsNothing<M>(codec: Codec<M>, payload: seq<byte>, k: nat)
    requires |payload| <= MAX_FRAME_BYTES && 0 < k < |FrameOf(payload)|
    ensures ReadOne(codec, FrameOf(payload)[..k]) == Broken
  {
    if k >= HEADER_BYTES { assert FrameOf(payload)[..k][..HEADER_BYTES] == Header(|payload|); }
  }

  /** The first `n` frames are complete in the first `k` bytes and the next one is not; reading
      those bytes gives the `n` messages, without an error exactly when no byte is left over. */
  ghost predicate IsCut<M>(codec: Codec<M>, messages: seq<M>, k: nat, n: nat)
    requires Fit(codec, messages) && k <= |Frames(codec, messages)|
  {
    && n <= |messages| && |Frames(codec, messages[..n])| <= k
    && (n < |messages| ==> k < |Frames(codec, messages[..n + 1])|)
    && ReadAll(codec, Frames(codec, messages)[..k]) == (messages[..n], k == |Frames(codec, messages[..n])|)
  }

  lemma CutInFirst<M(!new)>(codec: Codec<M>, messages: seq<M>, k: nat)
    requires RoundTrips(codec) && Fit(codec, messages) && messages != [] && k < |FrameOf(codec.encode(messages[0]))|
    ensures k <= |Frames(codec, messages)| && IsCut(codec, messages, k, 0)
  {
    var m, tail := messages[0], Frames(codec, messages[1..]);
    var frame := FrameOf(codec.encode(m));
    assert messages[..0] == [] && messages[..0 + 1] == [m] && [m][1..] == [];
    assert (frame + tail)[..k] == frame[..k];
    if k > 0 { ReadsNothing(codec, codec.encode(m), k); }
  }

  lemma CutLater<M(!new)>(codec: Codec<M>, messages: seq<M>, k: nat, n: nat)
    requires RoundTrips(codec) && Fit(codec, messages) && messages != []
    requires |FrameOf(codec.encode(messages[0]))| <= k <= |Frames(codec, messages)|
    requires IsCut(codec, messages[1..], k - |FrameOf(codec.encode(messages[0]))|, n)
    ensures IsCut(codec, messages, k, n + 1)
  {
    hide ReadOne, FrameOf, RoundTrips;
    var m, rest := messages[0], messages[1..];
    var frame, tail := FrameOf(codec.encode(m)), Frames(codec, rest);
    FramesOfPrefix(codec, messages, n);
    if n < |rest| { FramesOfPrefix(codec, messages, n + 1); }
    CutAfterFrame(frame, tail, k);
    ReadsFirst(codec, m, tail[..k - |frame|]);
    assert messages[..n + 1] == [m] + rest[..n];
  }

  /** MAIN: a stream cut anywhere yields exactly the messages whose frames are complete, and ends
      without an error exactly when the cut is between two frames. */
  lemma {:induction false} CutStream<M(!new)>(codec: Codec<M>, messages: seq<M>, k: nat) returns (n: nat)
    requires RoundTrips(codec) && Fit(codec, messages) && k <= |Frames(codec, messages)|
    ensures IsCut(codec, messages, k, n)
  {
    if messages == [] {
      n := 0;
    } else {
      hide IsCut, ReadAll, FrameOf, RoundTrips;
      var frame := FrameOf(codec.encode(messages[0]));
      if k < |frame| {
        n := 0;
        CutInFirst(codec, messages, k);
      } else {
        n := CutStream(codec, messages[1..], k - |frame|);
        CutLater(codec, messages, k, n);
        n := n + 1;
      }
    }
  }

  lemma CutAfterFrame(frame: seq<byte>, tail: seq<byte>, k: nat)
    requires |frame| <= k <= |frame| + |tail|
    ensures (frame + tail)[..k] == frame + tail[..k - |frame|]
  {
  }

  lemma FramesOfPrefix<M>(codec: Codec<M>, messages: seq<M>, n: nat)
    requires Fit(codec, messages) && n < |messages|
    ensures Frames(codec, messages[..n + 1]) == FrameOf(codec.encode(messages[0])) + Frames(codec, messages[1..][..n])
  {
    assert messages[..n + 1][0] == messages[0] && messages[..n + 1][1..] == messages[1..][..n];
  }
}
