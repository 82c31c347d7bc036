/** Channel framing of the WebSocket subprotocols. */
module Channel {

  import opened Options
  import opened Bytes
  import opened Base64

  const DIGIT_ZERO: byte := 48

  /** `encode_binary` and `decode_binary`: the channel byte, then the payload. */
  function EncodeBinary(channel: byte, payload: seq<byte>): seq<byte> { [channel] + payload }

  function DecodeBinary(frame: seq<byte>): Option<(byte, seq<byte>)> {
    if frame == [] then None else Some((frame[0], frame[1..]))
  }

  /** `encode_base64`: an ASCII digit, then the padded standard encoding. */
  function EncodeBase64(channel: byte, payload: seq<byte>): seq<byte>
    requires channel <= 9
  {
    [DIGIT_ZERO + channel] + Encoded(false, true, payload)
  }

  function DecodeBase64(frame: seq<byte>): Option<(byte, seq<byte>)> {
    if frame == [] || frame[0] < DIGIT_ZERO || frame[0] > DIGIT_ZERO + 9 then None
    else
      var channel: int := frame[0] - DIGIT_ZERO;
      match Decoded(false, frame[1..], 0, 0)
      case None => None
      case Some(payload) => Some((channel, payload))
  }

  lemma {:induction false} BinaryRoundTrip(channel: byte, payload: seq<byte>, frame: seq<byte>)
    ensures DecodeBinary(EncodeBinary(channel, payload)) == Some((channel, payload))
    ensures DecodeBinary(frame).Some? ==> EncodeBinary(DecodeBinary(frame).value.0, DecodeBinary(frame).value.1) == frame
  {
    assert EncodeBinary(channel, payload)[1..] == payload;
  }

  /** Channel and payload come back, for every digit and every payload. */
  lemma {:induction false} Base64RoundTrip(channel: byte, payload: seq<byte>)
    requires channel <= 9
    ensures DecodeBase64(EncodeBase64(channel, payload)) == Some((channel, payload))
  {
    assert EncodeBase64(channel, payload)[1..] == Encoded(false, true, payload);
    DecodeEncoded(false, true, payload);
  }

  /** The first byte of a frame is the channel, as a number or as the ASCII
      digit; the payload follows as it is or in padded standard base64. */
  lemma {:induction false} ChannelComesFirst(channel: byte, payload: seq<byte>)
    ensures EncodeBinary(channel, payload)[0] == channel && EncodeBinary(channel, payload)[1..] == payload
    ensures channel <= 9 ==>
      EncodeBase64(channel, payload)[0] as int == 48 + channel && EncodeBase64(channel, payload)[1..] == Encoded(false, true, payload)
  {
  }

  /** A frame decodes exactly when it begins with a digit and goes on in
      base64; its channel is that digit. */
  lemma {:induction false} DecodesExactlyDigits(frame: seq<byte>)
    ensures DecodeBase64(frame).Some? <==>
      frame != [] && 48 <= frame[0] <= 57 && forall b <- frame[1..] :: Accepted(false, b)
    ensures DecodeBase64(frame).Some? ==> DecodeBase64(frame).value.0 as int == frame[0] - 48
    ensures DecodeBinary(frame).Some? <==> frame != []
  {
    if frame != [] { DecodesExactly(false, frame[1..]); }
  }
}
