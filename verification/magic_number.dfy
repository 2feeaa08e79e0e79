/**
 * `checkMagicNum`: whether a record payload begins with the three-byte
 * marker of the log's own framing.
 */
module MagicNumbers {
  import opened Wrappers
  import opened JavaLang

  /** `LogData.MAGIC_NUMBER`, whose bytes are defined outside this model. */
  datatype MagicNumber = MagicNumber(b0: Byte, b1: Byte, b2: Byte)

  function Bytes(magic: MagicNumber): (r: seq<Byte>)
    ensures |r| == 3
  {
    [magic.b0, magic.b1, magic.b2]
  }

  /**
   * `checkMagicNum`: a `null` array throws `NullPointerException`, one
   * shorter than three bytes throws `IllegalArgumentException`; otherwise the
   * answer is whether the first three bytes are the marker.
   */
  function CheckMagicNum(value: Option<seq<Byte>>, magic: MagicNumber): (r: Result<bool, Exception>)
    ensures value.None? ==> r == Failure(NullPointer)
    ensures value.Some? && |value.value| < 3 ==> r == Failure(IllegalArgument)
    ensures value.Some? && 3 <= |value.value| ==> r.Success? && (r.value <==> value.value[..3] == Bytes(magic))
  {
    if value.None? then Failure(NullPointer)
    else if |value.value| < 3 then Failure(IllegalArgument)
    else
      var v := value.value;
      Success(v[0] == magic.b0 && v[1] == magic.b1 && v[2] == magic.b2)
  }

  /** Only the first three bytes matter: whatever follows them leaves the answer unchanged. */
  lemma CheckMagicNumIgnoresTail(head: seq<Byte>, tail: seq<Byte>, magic: MagicNumber)
    requires |head| == 3
    ensures CheckMagicNum(Some(head + tail), magic) == CheckMagicNum(Some(head), magic)
  {
    assert (head + tail)[..3] == head[..3];
  }

  /** A payload framed with the marker is recognised, whatever it carries. */
  lemma FramedPayloadAccepted(payload: seq<Byte>, magic: MagicNumber)
    ensures CheckMagicNum(Some(Bytes(magic) + payload), magic) == Success(true)
  {
    assert (Bytes(magic) + payload)[..3] == Bytes(magic);
  }
}
