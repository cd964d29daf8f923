/**
 Length-prefixed frames on a byte stream: four bytes of big-endian length, then the
 serialised message.
 */
module Frames {
  import opened Types

  const MAX_FRAME_SIZE: nat := 16 * 1024 * 1024

  /** A number in so many bytes, the most significant first; higher digits are lost. */
  function ToBigEndian(n: nat, width: nat): (b: Bytes)
    ensures |b| == width
  {
    if width == 0 then [] else ToBigEndian(n / 256, width - 1) + [(n % 256) as byte]
  }

  function FromBigEndian(b: Bytes): nat {
    if b == [] then 0 else 256 * FromBigEndian(b[..|b| - 1]) + b[|b| - 1] as nat
  }

  function Pow256(width: nat): nat {
    if width == 0 then 1 else 256 * Pow256(width - 1)
  }

  lemma {:induction false} BigEndianRoundTrip(n: nat, width: nat)
    requires n < Pow256(width)
    ensures FromBigEndian(ToBigEndian(n, width)) == n
  {
    if width > 0 {
      BigEndianRoundTrip(n / 256, width - 1);
      var b := ToBigEndian(n, width);
      assert b[..width - 1] == ToBigEndian(n / 256, width - 1);
    }
  }

  /** The four bytes of a length. */
  function Header(len: nat): (b: Bytes)
    ensures |b| == 4
  {
    ToBigEndian(len, 4)
  }

  lemma HeaderRoundTrip(len: nat)
    requires len < U32
    ensures FromBigEndian(Header(len)) == len
  {
    assert Pow256(4) == 256 * Pow256(3) && Pow256(3) == 256 * Pow256(2);
    BigEndianRoundTrip(len, 4);
  }

  datatype WriteError = NotSerialisable | TooLarge(length: nat)

  datatype ReadOutcome<T> =
    | Message(value: T)
    | EndOfStream
    | TooLongFrame
    | TruncatedPayload
    | Malformed

  /** The frame `write_frame` sends; the length is the payload's, cut to 32 bits. */
  function FrameOf(payload: Bytes): Result<Bytes, WriteError> {
    var len := |payload| % U32;
    if len > MAX_FRAME_SIZE then Err(TooLarge(len)) else Ok(Header(len) + payload)
  }

  /** Both ends of a connection: what has been written and not yet read. */
  class Connection<T> {
    const codec: Codec<T>
    var pending: Bytes

    constructor (codec: Codec<T>, bytes: Bytes)
      ensures this.codec == codec && pending == bytes
    {
      this.codec, pending := codec, bytes;
    }

    method WriteFrame(value: T) returns (result: Result<(), WriteError>)
      modifies this
      ensures result == match codec.encode(value)
                        case None => Err(NotSerialisable)
                        case Some(payload) => if FrameOf(payload).Ok? then Ok(()) else Err(FrameOf(payload).error)
      ensures pending == old(pending) + (if result.Ok? then FrameOf(codec.encode(value).value).value else [])
    {
      var payload := codec.encode(value);
      if payload.None? {
        return Err(NotSerialisable);
      }
      var len := |payload.value| % U32;
      if len > MAX_FRAME_SIZE {
        return Err(TooLarge(len));
      }
      pending := pending + Header(len);
      pending := pending + payload.value;
      assert pending == old(pending) + (Header(len) + payload.value);
      result := Ok(());
    }

    /** A failed `read_exact` has consumed what there was. */
    method ReadFrame() returns (outcome: ReadOutcome<T>)
      modifies this
      ensures (outcome, pending) == ReadOne(codec, old(pending))
    {
      if |pending| < 4 {
        pending := [];
        return EndOfStream;
      }
      var len := FromBigEndian(pending[..4]);
      pending := pending[4..];
      if len > MAX_FRAME_SIZE {
        return TooLongFrame;
      }
      if |pending| < len {
        pending := [];
        return TruncatedPayload;
      }
      var buf := pending[..len];
      pending := pending[len..];
      match codec.decode(buf)
      case None => return Malformed;
      case Some(value) => return Message(value);
    }
  }

  function ReadOne<T>(codec: Codec<T>, bytes: Bytes): (ReadOutcome<T>, Bytes) {
    if |bytes| < 4 then (EndOfStream, [])
    else
      var len := FromBigEndian(bytes[..4]);
      var rest := bytes[4..];
      if len > MAX_FRAME_SIZE then (TooLongFrame, rest)
      else if |rest| < len then (TruncatedPayload, [])
      else
        match codec.decode(rest[..len])
        case None => (Malformed, rest[len..])
        case Some(value) => (Message(value), rest[len..])
  }

  /** Read until something other than a message comes. */
  function ReadAll<T>(codec: Codec<T>, bytes: Bytes): (seq<T>, ReadOutcome<T>)
    decreases |bytes|
  {
    var (outcome, rest) := ReadOne(codec, bytes);
    if outcome.Message? then
      var (values, last) := ReadAll(codec, rest);
      ([outcome.value] + values, last)
    else ([], outcome)
  }

  /** The message serialises to at most the limit. */
  predicate Sendable<T>(codec: Codec<T>, value: T) {
    codec.encode(value).Some? && |codec.encode(value).value| <= MAX_FRAME_SIZE
  }

  function Frame<T>(codec: Codec<T>, value: T): Bytes
    requires Sendable(codec, value)
  {
    FrameOf(codec.encode(value).value).value
  }

  function Frames<T>(codec: Codec<T>, values: seq<T>): Bytes
    requires forall v | v in values :: Sendable(codec, v)
  {
    if values == [] then [] else Frame(codec, values[0]) + Frames(codec, values[1..])
  }

  lemma ReadsFrame<T(!new)>(codec: Codec<T>, value: T, rest: Bytes)
    requires Lawful(codec) && Sendable(codec, value)
    ensures ReadOne(codec, Frame(codec, value) + rest) == (Message(value), rest)
  {
    var payload := codec.encode(value).value;
    var bytes := Frame(codec, value) + rest;
    HeaderRoundTrip(|payload|);
    assert bytes[..4] == Header(|payload|);
    assert bytes[4..] == payload + rest;
    assert bytes[4..][..|payload|] == payload && bytes[4..][|payload|..] == rest;
  }

  /** What reading a stream cut off within a frame ends with. */
  lemma CutFrame<T>(codec: Codec<T>, value: T, n: nat)
    requires Sendable(codec, value) && n < |Frame(codec, value)|
    ensures ReadOne(codec, Frame(codec, value)[..n]) == (if n < 4 then EndOfStream else TruncatedPayload, [])
  {
    var payload := codec.encode(value).value;
    HeaderRoundTrip(|payload|);
    if n >= 4 {
      assert Frame(codec, value)[..n][..4] == Header(|payload|);
    }
  }

  /** How many whole frames fit into the first `n` bytes. */
  function WholeFrames<T>(codec: Codec<T>, values: seq<T>, n: nat): (k: nat)
    requires forall v | v in values :: Sendable(codec, v)
    ensures k <= |values|
  {
    if values == [] || n < |Frame(codec, values[0])| then 0
    else 1 + WholeFrames(codec, values[1..], n - |Frame(codec, values[0])|)
  }

  /** From the first `n` bytes exactly the messages whose frames are complete are read, in order. */
  ghost predicate ReadsWhole<T(!new)>(codec: Codec<T>, values: seq<T>, n: nat)
    requires forall v | v in values :: Sendable(codec, v)
    requires n <= |Frames(codec, values)|
  {
    var k := WholeFrames(codec, values, n);
    && |Frames(codec, values[..k])| <= n
    && ReadAll(codec, Frames(codec, values)[..n])
       == (values[..k], if n - |Frames(codec, values[..k])| < 4 then EndOfStream else TruncatedPayload)
  }

  lemma FirstIsCut<T(!new)>(codec: Codec<T>, values: seq<T>, n: nat)
    requires values != [] && forall v | v in values :: Sendable(codec, v)
    requires n < |Frame(codec, values[0])| && n <= |Frames(codec, values)|
    ensures ReadsWhole(codec, values, n)
  {
    CutPrefix(Frame(codec, values[0]), Frames(codec, values[1..]), n);
    ReadAllCut(codec, values[0], n);
    assert values[..0] == [];
  }

  /** The whole frames of a stream after its first one. */
  lemma OneMoreFits<T(!new)>(codec: Codec<T>, values: seq<T>, m: nat)
    requires values != [] && forall v | v in values :: Sendable(codec, v)
    requires m <= |Frames(codec, values[1..])|
    ensures var first := Frame(codec, values[0]);
            && |Frames(codec, values)| == |first| + |Frames(codec, values[1..])|
            && WholeFrames(codec, values, |first| + m) == 1 + WholeFrames(codec, values[1..], m)
            && Frames(codec, values)[..|first| + m] == first + Frames(codec, values[1..])[..m]
  {
    CutSuffix(Frame(codec, values[0]), Frames(codec, values[1..]), m);
  }

  lemma FirstIsWhole<T(!new)>(codec: Codec<T>, values: seq<T>, m: nat)
    requires Lawful(codec) && values != [] && forall v | v in values :: Sendable(codec, v)
    requires m <= |Frames(codec, values[1..])| && ReadsWhole(codec, values[1..], m)
    requires |Frame(codec, values[0])| + m <= |Frames(codec, values)|
    ensures ReadsWhole(codec, values, |Frame(codec, values[0])| + m)
  {
    OneMoreFits(codec, values, m);
    ReadAllFrame(codec, values[0], Frames(codec, values[1..])[..m]);
    var k := WholeFrames(codec, values[1..], m);
    FramesPrefix(codec, values, k);
    assert [values[0]] + values[1..][..k] == values[..k + 1];
  }

  lemma CutPrefix(a: Bytes, b: Bytes, n: nat)
    requires n <= |a|
    ensures (a + b)[..n] == a[..n]
  {
  }

  lemma CutSuffix(a: Bytes, b: Bytes, n: nat)
    requires n <= |b|
    ensures (a + b)[..|a| + n] == a + b[..n]
  {
  }

  /**
   Frame stream round trip under truncation: from the first `n` bytes of a stream of
   frames exactly the messages whose frames are complete are read, in order; then comes
   the end of the stream if fewer than four bytes are left over, else an error.
   */
  lemma {:induction false} TruncatedStream<T(!new)>(codec: Codec<T>, values: seq<T>, n: nat)
    requires Lawful(codec) && forall v | v in values :: Sendable(codec, v)
    requires n <= |Frames(codec, values)|
    ensures ReadsWhole(codec, values, n)
    decreases |values|
  {
    if values == [] {
      assert Frames(codec, values)[..n] == [];
    } else if n < |Frame(codec, values[0])| {
      FirstIsCut(codec, values, n);
    } else {
      var m := n - |Frame(codec, values[0])|;
      TruncatedStream(codec, values[1..], m);
      FirstIsWhole(codec, values, m);
    }
  }

  lemma ReadAllFrame<T(!new)>(codec: Codec<T>, value: T, rest: Bytes)
    requires Lawful(codec) && Sendable(codec, value)
    ensures ReadAll(codec, Frame(codec, value) + rest)
            == ([value] + ReadAll(codec, rest).0, ReadAll(codec, rest).1)
  {
    ReadsFrame(codec, value, rest);
  }

  lemma ReadAllCut<T>(codec: Codec<T>, value: T, n: nat)
    requires Sendable(codec, value) && n < |Frame(codec, value)|
    ensures ReadAll(codec, Frame(codec, value)[..n]) == ([], if n < 4 then EndOfStream else TruncatedPayload)
  {
    CutFrame(codec, value, n);
  }

  lemma FramesPrefix<T>(codec: Codec<T>, values: seq<T>, k: nat)
    requires k < |values| && forall v | v in values :: Sendable(codec, v)
    ensures Frames(codec, values[..k + 1]) == Frame(codec, values[0]) + Frames(codec, values[1..][..k])
  {
    assert values[..k + 1][0] == values[0] && values[..k + 1][1..] == values[1..][..k];
  }

  lemma {:induction false} AllFramesWhole<T>(codec: Codec<T>, values: seq<T>)
    requires forall v | v in values :: Sendable(codec, v)
    ensures WholeFrames(codec, values, |Frames(codec, values)|) == |values|
  {
    if values != [] {
      AllFramesWhole(codec, values[1..]);
    }
  }

  /** Reading back a whole stream of frames gives the messages and then a clean end. */
  lemma StreamRoundTrip<T(!new)>(codec: Codec<T>, values: seq<T>)
    requires Lawful(codec) && forall v | v in values :: Sendable(codec, v)
    ensures ReadAll(codec, Frames(codec, values)) == (values, EndOfStream)
  {
    var bytes := Frames(codec, values);
    TruncatedStream(codec, values, |bytes|);
    AllFramesWhole(codec, values);
    assert values[..|values|] == values && bytes[..|bytes|] == bytes;
  }

  /**
   The size check looks at the length after it has been cut to 32 bits, so it lets a
   payload of four gibibytes or more through whenever the remainder is small. An accepted
   payload is framed with its own length exactly if it is shorter than that.
   */
  lemma AcceptedLengthIsRightIff(payload: Bytes)
    requires FrameOf(payload).Ok?
    ensures FromBigEndian(FrameOf(payload).value[..4]) == |payload| <==> |payload| < U32
    ensures |payload| < U32 ==> |payload| <= MAX_FRAME_SIZE
  {
    HeaderRoundTrip(|payload| % U32);
    assert FrameOf(payload).value[..4] == Header(|payload| % U32);
  }

  /** Such a payload exists: one of exactly four gibibytes is sent with the length zero. */
  lemma HugePayloadIsAccepted() returns (payload: Bytes)
    ensures |payload| == U32 && FrameOf(payload).Ok?
    ensures FromBigEndian(FrameOf(payload).value[..4]) == 0
  {
    payload := seq(U32, i => 0 as byte);
    HeaderRoundTrip(0);
    assert FrameOf(payload).value[..4] == Header(0);
  }

  // ----- The format on the wire -----

  /** Four bytes of length, the most significant first, and as many bytes; at most 16 MiB of them. */
  predicate IsWire(frame: Bytes) {
    && |frame| >= 4 && |frame| - 4 <= 16_777_216
    && ((frame[0] as nat * 256 + frame[1] as nat) * 256 + frame[2] as nat) * 256 + frame[3] as nat == |frame| - 4
  }

  /** A payload shorter than four gibibytes is sent exactly if it is within the limit, in this format. */
  lemma SentIsWireIff(payload: Bytes)
    requires |payload| < 0x1_0000_0000
    ensures FrameOf(payload).Ok? <==> |payload| <= 16_777_216
    ensures FrameOf(payload).Ok? ==> IsWire(FrameOf(payload).value) && FrameOf(payload).value[4..] == payload
  {
    if |payload| <= MAX_FRAME_SIZE {
      HeaderIsWire(Header(|payload|), payload);
      HeaderRoundTrip(|payload|);
    }
  }

  lemma HeaderIsWire(header: Bytes, payload: Bytes)
    requires |header| == 4 && |payload| <= 16_777_216
    ensures IsWire(header + payload) <==> FromBigEndian(header) == |payload|
    ensures (header + payload)[4..] == payload
  {
    FourBytes(header);
  }

  lemma FourBytes(b: Bytes)
    requires |b| == 4
    ensures FromBigEndian(b) == ((b[0] as nat * 256 + b[1] as nat) * 256 + b[2] as nat) * 256 + b[3] as nat
  {
    assert b[..3][..2] == b[..2] && b[..2][..1] == b[..1] && b[..1][..0] == [];
    assert FromBigEndian(b[..2]) == 256 * FromBigEndian(b[..1]) + b[1] as nat;
    assert FromBigEndian(b[..1]) == b[0] as nat;
  }

  /** A message is read exactly if the stream begins with a frame of this format that decodes to it. */
  lemma ReadsIff<T>(codec: Codec<T>, bytes: Bytes, value: T, rest: Bytes)
    ensures ReadOne(codec, bytes) == (Message(value), rest) <==>
            exists n | 4 <= n <= |bytes| ::
              IsWire(bytes[..n]) && codec.decode(bytes[4..n]) == Some(value) && bytes[n..] == rest
  {
    if |bytes| >= 4 {
      var len := FromBigEndian(bytes[..4]);
      FourBytes(bytes[..4]);
      forall n | 4 <= n <= |bytes| && IsWire(bytes[..n]) ensures n == 4 + len {
        assert bytes[..n][..4] == bytes[..4];
      }
      if len <= |bytes| - 4 {
        assert bytes[4..][..len] == bytes[4..4 + len] && bytes[4..][len..] == bytes[4 + len..];
        assert bytes[..4 + len][..4] == bytes[..4];
      }
    }
  }
}
