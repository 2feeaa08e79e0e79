/**
 * The string keys of the epic start-offset ledger. They are built by joining
 * the topic, the partition index, the upstream job id and the epic number with
 * `_`, exactly as the helper's four `combine*` methods concatenate them.
 */
module LedgerKeys {
  import opened Wrappers
  import opened JavaLang

  /** Kafka's `TopicPartition`: a topic name and a partition index. */
  datatype TopicPartition = TopicPartition(topic: string, partition: Int)

  /** `combineTopicPartition`: `topic_partition`. */
  function TopicPartitionPart(tp: TopicPartition): (r: string)
    ensures tp.topic <= r
  {
    tp.topic + "_" + IntToDecimal(tp.partition)
  }

  /** `combineTopicPartitionAndUpstreamId`: `topic_partition_upstreamId`, the prefix pruning looks for. */
  function UpstreamPrefix(tp: TopicPartition, upstreamId: string): (r: string)
    ensures TopicPartitionPart(tp) <= r
  {
    TopicPartitionPart(tp) + "_" + upstreamId
  }

  /**
   * The three-argument `combineTopicPartitionAndUpstreamIdAndEpicNo`:
   * `topic_partition_upstreamId_epicNo`. It begins with the upstream prefix,
   * and it is the key a restored split entry named `upstreamId_epicNo` gets.
   */
  function EpicKey(tp: TopicPartition, upstreamId: string, epicNo: Long): (r: string)
    ensures UpstreamPrefix(tp, upstreamId) <= r
    ensures r == SplitEntryKey(tp, upstreamId + "_" + IntToDecimal(epicNo))
  {
    UpstreamPrefix(tp, upstreamId) + "_" + IntToDecimal(epicNo)
  }

  /**
   * The two-argument `combineTopicPartitionAndUpstreamIdAndEpicNo`, used on
   * restore: `topic_partition_` followed by the split's `upstreamEpic` text.
   */
  function SplitEntryKey(tp: TopicPartition, upstreamEpic: string): (r: string)
    ensures TopicPartitionPart(tp) + "_" <= r
  {
    TopicPartitionPart(tp) + "_" + upstreamEpic
  }

  /** Restored keys of one partition are distinct for distinct split entries. */
  lemma SplitEntryKeyInjective(tp: TopicPartition, e1: string, e2: string)
    requires SplitEntryKey(tp, e1) == SplitEntryKey(tp, e2)
    ensures e1 == e2
  {
    var p := TopicPartitionPart(tp) + "_";
    assert e1 == SplitEntryKey(tp, e1)[|p|..];
    assert e2 == SplitEntryKey(tp, e2)[|p|..];
  }

  // The helper never decodes a key. The decoder below (`LastIndexOf`,
  // `SplitLast`, `DecodeEpicKey`) exists only to show that the key builders
  // are injective: a key that decodes back to its parts cannot be shared.

  /** The last index of `s` holding `c`, or -1. */
  function LastIndexOf(s: string, c: char): (r: int)
    ensures -1 <= r < |s|
    ensures 0 <= r ==> s[r] == c
    ensures forall i :: r < i < |s| ==> s[i] != c
  {
    if |s| == 0 then -1
    else if s[|s| - 1] == c then |s| - 1
    else LastIndexOf(s[..|s| - 1], c)
  }

  /** Cuts `s` at its last `_`. */
  function SplitLast(s: string): Option<(string, string)> {
    var i := LastIndexOf(s, '_');
    if i < 0 then None else Some((s[..i], s[i + 1..]))
  }

  /** Cutting `a_b` at its last `_` gives back `a` and `b` when `b` holds no `_`. */
  lemma SplitLastJoin(a: string, b: string)
    requires '_' !in b
    ensures SplitLast(a + "_" + b) == Some((a, b))
  {
    var s := a + "_" + b;
    assert s[|a|] == '_';
    forall i | |a| < i < |s|
      ensures s[i] != '_'
    {
      assert s[i] == b[i - |a| - 1];
    }
    assert LastIndexOf(s, '_') == |a|;
    assert s[..|a|] == a;
    assert s[|a| + 1..] == b;
  }

  /** The parts an epic key is made of. */
  datatype KeyParts = KeyParts(topic: string, partition: int, upstreamId: string, epicNo: int)

  /** Reads an epic key back into its parts, cutting at the last three `_`; a proof device, not helper code. */
  function DecodeEpicKey(key: string): Option<KeyParts> {
    match SplitLast(key)
    case None => None
    case Some((prefix, epicText)) =>
      match SplitLast(prefix)
      case None => None
      case Some((tpText, upstreamId)) =>
        match SplitLast(tpText)
        case None => None
        case Some((topic, partitionText)) =>
          match (ParseDecimal(partitionText), ParseDecimal(epicText))
          case (Some(partition), Some(epicNo)) => Some(KeyParts(topic, partition, upstreamId, epicNo))
          case _ => None
  }

  /**
   * An epic key determines its topic partition, upstream id and epic number,
   * provided the upstream id holds no `_` (the topic may).
   */
  lemma EpicKeyRoundTrip(tp: TopicPartition, upstreamId: string, epicNo: Long)
    requires '_' !in upstreamId
    ensures DecodeEpicKey(EpicKey(tp, upstreamId, epicNo))
         == Some(KeyParts(tp.topic, tp.partition, upstreamId, epicNo))
  {
    SplitLastJoin(UpstreamPrefix(tp, upstreamId), IntToDecimal(epicNo));
    SplitLastJoin(TopicPartitionPart(tp), upstreamId);
    SplitLastJoin(tp.topic, IntToDecimal(tp.partition));
    DecimalRoundTrip(tp.partition);
    DecimalRoundTrip(epicNo);
  }

  /** Distinct (partition, upstream id, epic) triples get distinct keys when upstream ids hold no `_`. */
  lemma EpicKeyInjective(tp1: TopicPartition, u1: string, e1: Long, tp2: TopicPartition, u2: string, e2: Long)
    requires '_' !in u1 && '_' !in u2
    requires EpicKey(tp1, u1, e1) == EpicKey(tp2, u2, e2)
    ensures tp1 == tp2 && u1 == u2 && e1 == e2
  {
    EpicKeyRoundTrip(tp1, u1, e1);
    EpicKeyRoundTrip(tp2, u2, e2);
  }
}
