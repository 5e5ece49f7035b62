/** The frame layout and its encoder (proto/messages.hpp, proto/frame_encoder.hpp). */
module FrameEncoder {
  import opened Bits
  import opened Crc16
  import opened Cobs

  const HEADER_SIZE: nat := 2
  const CRC_SIZE: nat := 2
  const MAX_PAYLOAD: nat := 255
  const MAX_BEFORE_COBS: nat := HEADER_SIZE + MAX_PAYLOAD + CRC_SIZE

  /** A message type byte and its payload. The parser hands on any type byte, so any is allowed. */
  datatype Frame = Frame(mtype: byte, payload: seq<byte>)

  predicate Fits(f: Frame)
  {
    |f.payload| <= MAX_PAYLOAD
  }

  /** type | length | payload, the part the CRC covers. */
  function Covered(f: Frame): (r: seq<byte>)
    requires Fits(f)
    ensures |r| == HEADER_SIZE + |f.payload|
  {
    [f.mtype, |f.payload| as byte] + f.payload
  }

  /** The frame before byte stuffing. */
  function Blob(f: Frame): (r: seq<byte>)
    requires Fits(f)
    ensures |r| == HEADER_SIZE + |f.payload| + CRC_SIZE
  {
    Covered(f) + WordBytes(Crc(Covered(f)))
  }

  function Body(f: Frame): seq<byte>
    requires Fits(f)
  {
    Encode(Blob(f))
  }

  /** The frame on the wire. */
  function FrameBytes(f: Frame): (r: seq<byte>)
    requires Fits(f)
  {
    Body(f) + [0]
  }

  function MaxEncodedFrameSize(payloadSize: nat): nat
  {
    EncodedMaxSize(HEADER_SIZE + payloadSize + CRC_SIZE) + 1
  }

  /** A buffer of the advertised size always suffices, the delimiter occurs only at the end, and the
      body is not empty. */
  lemma FrameShape(f: Frame)
    requires Fits(f)
    ensures NoZero(Body(f)) && Body(f) != []
    ensures |FrameBytes(f)| <= MaxEncodedFrameSize(|f.payload|)
  {
    EncodedSize(Blob(f));
    EncodingHasNoZero(Blob(f));
  }

  datatype EncodeStatus = EncodeOk | PayloadTooLarge | EncodeOverflow

  /** `encode_frame` into an output buffer of `capacity` bytes: it refuses an oversized payload, and
      otherwise succeeds exactly when the frame fits. */
  method EncodeFrame(mtype: byte, payload: array<byte>, payloadSize: nat, out: array<byte>, capacity: nat)
    returns (status: EncodeStatus, size: nat)
    requires payloadSize <= payload.Length && capacity <= out.Length && payload != out
    modifies out
    ensures var f := Frame(mtype, payload[..payloadSize]);
            && (payloadSize > 255 ==> status == PayloadTooLarge)
            && (payloadSize <= 255 ==>
                  && status == (if |FrameBytes(f)| <= capacity then EncodeOk else EncodeOverflow)
                  && (status.EncodeOk? ==> size == |FrameBytes(f)| && out[..size] == FrameBytes(f)))
  {
    ghost var data := payload[..payloadSize];
    if payloadSize > MAX_PAYLOAD {
      return PayloadTooLarge, 0;
    }
    ghost var f := Frame(mtype, data);
    if capacity == 0 {
      return EncodeOverflow, 0;
    }
    var blob := BuildBlob(mtype, payload, payloadSize);
    var status', n := CobsEncode(blob, HEADER_SIZE + payloadSize + CRC_SIZE, out, capacity - 1);
    if status' != CobsStatus.Ok {
      return EncodeOverflow, 0;
    }
    out[n] := 0;
    assert out[..n] == Body(f);
    return EncodeOk, n + 1;
  }

  /** The blob `encode_frame` lays out in its local buffer. */
  method BuildBlob(mtype: byte, payload: array<byte>, payloadSize: nat) returns (blob: array<byte>)
    requires payloadSize <= payload.Length && payloadSize <= MAX_PAYLOAD
    ensures fresh(blob) && blob.Length == MAX_BEFORE_COBS
    ensures blob[..HEADER_SIZE + payloadSize + CRC_SIZE] == Blob(Frame(mtype, payload[..payloadSize]))
  {
    ghost var f := Frame(mtype, payload[..payloadSize]);
    blob := new byte[MAX_BEFORE_COBS](_ => 0);
    blob[0] := mtype;
    blob[1] := payloadSize as byte;
    for i := 0 to payloadSize
      invariant blob[..HEADER_SIZE] == [mtype, payloadSize as byte]
      invariant blob[HEADER_SIZE..HEADER_SIZE + i] == payload[..i]
    {
      blob[HEADER_SIZE + i] := payload[i];
      assert blob[HEADER_SIZE..HEADER_SIZE + i] == payload[..i];
    }
    assert blob[..HEADER_SIZE + payloadSize] == Covered(f);
    AppendCrc(blob, HEADER_SIZE + payloadSize, Covered(f));
  }

  method AppendCrc(blob: array<byte>, crcOffset: nat, ghost covered: seq<byte>)
    requires crcOffset + CRC_SIZE <= blob.Length && blob[..crcOffset] == covered
    modifies blob
    ensures blob[..crcOffset + CRC_SIZE] == covered + WordBytes(Crc(covered))
  {
    var crc := Crc16.Crc16(blob, crcOffset);
    var bytes := WordBytes(crc);
    blob[crcOffset] := bytes[0];
    blob[crcOffset + 1] := bytes[1];
    assert blob[..crcOffset] == covered;
    assert bytes == [bytes[0], bytes[1]];
  }
}
