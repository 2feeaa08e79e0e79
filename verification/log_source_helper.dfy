/**
 * `LogSourceHelper`: for each topic partition of the log, whether it is
 * retracting an epic and where that retraction stops and forward reading
 * resumes, together with the ledger of epic start offsets that decides
 * whether a retraction is needed at all.
 */
module LogSourceHelper {
  import opened Wrappers
  import opened JavaLang
  import opened LedgerKeys
  import opened EpicLedger

  /** `EpicRetractingInfo`: the epic being cancelled and the offsets that bound the cancellation. */
  datatype EpicRetractingInfo = EpicRetractingInfo(
    epicNo: Long,
    upstreamId: string,
    retractStoppingOffset: Long,
    revertStartingOffset: Long)

  /**
   * `EpicRetractingInfo.of`: the record whose getters return the epic, the
   * upstream id, the stop offset and the resume offset it was made from.
   */
  function RetractingInfoOf(epicNo: Long, upstreamId: string, retractStopOffset: Long, revertStartOffset: Long)
    : (r: EpicRetractingInfo)
    ensures r.epicNo == epicNo && r.upstreamId == upstreamId
    ensures r.retractStoppingOffset == retractStopOffset && r.revertStartingOffset == revertStartOffset
  {
    EpicRetractingInfo(epicNo, upstreamId, retractStopOffset, revertStartOffset)
  }

  /**
   * The split a reader restores a partition from: a plain Kafka split, or a
   * log split that carries the retraction state and the start offsets
   * recorded before the checkpoint (keyed by `upstreamId_epicNo` text).
   */
  datatype Split =
    | KafkaSplit(topicPartition: TopicPartition)
    | LogSplit(
        topicPartition: TopicPartition,
        isRetracting: bool,
        retractingEpicNo: Long,
        retractingUpstreamId: string,
        retractStopOffset: Long,
        revertStartOffset: Long,
        upStreamEpicStartOffsets: map<string, Long>)

  /** The helper's two fields. */
  datatype Helper = Helper(
    retractingInfo: map<TopicPartition, EpicRetractingInfo>,
    upstreamEpicStartOffsets: Ledger)

  /** The constructor: no partition is retracting and no start offset is known. */
  function New(): (h: Helper)
    ensures GetRetractTopicPartitions(h) == {}
    ensures h.upstreamEpicStartOffsets == map[]
  {
    Helper(map[], map[])
  }

  /** Keys of one partition's restored entries never collide. */
  lemma SplitEntryKeysDistinct(tp: TopicPartition)
    ensures forall e1, e2 :: SplitEntryKey(tp, e1) == SplitEntryKey(tp, e2) ==> e1 == e2
  {
    forall e1, e2 | SplitEntryKey(tp, e1) == SplitEntryKey(tp, e2)
      ensures e1 == e2
    {
      SplitEntryKeyInjective(tp, e1, e2);
    }
  }

  /** A split's start offsets re-keyed under `topic_partition_`. */
  function RestoredEntries(tp: TopicPartition, offsets: map<string, Long>): (r: Ledger)
    ensures forall e :: e in offsets ==> SplitEntryKey(tp, e) in r && r[SplitEntryKey(tp, e)] == offsets[e]
    ensures forall k :: k in r ==> exists e :: e in offsets && k == SplitEntryKey(tp, e)
  {
    SplitEntryKeysDistinct(tp);
    map e | e in offsets :: SplitEntryKey(tp, e) := offsets[e]
  }

  /**
   * `initializedState`: a plain Kafka split changes nothing. A log split
   * that is retracting sets its partition's retraction record from the
   * split; every restored start offset is added unless its key is already
   * in the ledger, so existing values are never overwritten.
   */
  function InitializedState(h: Helper, s: Split): (r: Helper)
    ensures s.KafkaSplit? ==> r == h
    ensures s.LogSplit? && !s.isRetracting ==> r.retractingInfo == h.retractingInfo
    ensures s.LogSplit? && s.isRetracting ==>
      && r.retractingInfo.Keys == h.retractingInfo.Keys + {s.topicPartition}
      && r.retractingInfo[s.topicPartition] == EpicRetractingInfo(
           s.retractingEpicNo, s.retractingUpstreamId, s.retractStopOffset, s.revertStartOffset)
      && forall tp :: tp in h.retractingInfo && tp != s.topicPartition ==> r.retractingInfo[tp] == h.retractingInfo[tp]
    ensures s.LogSplit? ==> forall k :: k in h.upstreamEpicStartOffsets ==>
      k in r.upstreamEpicStartOffsets && r.upstreamEpicStartOffsets[k] == h.upstreamEpicStartOffsets[k]
    ensures s.LogSplit? ==> forall e :: e in s.upStreamEpicStartOffsets ==>
      var k := SplitEntryKey(s.topicPartition, e);
      k in r.upstreamEpicStartOffsets
      && (k !in h.upstreamEpicStartOffsets ==> r.upstreamEpicStartOffsets[k] == s.upStreamEpicStartOffsets[e])
    ensures s.LogSplit? ==> forall k :: k in r.upstreamEpicStartOffsets ==>
      k in h.upstreamEpicStartOffsets
      || exists e :: e in s.upStreamEpicStartOffsets && k == SplitEntryKey(s.topicPartition, e)
  {
    match s
    case KafkaSplit(_) => h
    case LogSplit(tp, retracting, epicNo, upstreamId, stopOffset, revertOffset, offsets) =>
      var info :=
        if retracting then h.retractingInfo[tp := RetractingInfoOf(epicNo, upstreamId, stopOffset, revertOffset)]
        else h.retractingInfo;
      Helper(info, RestoredEntries(tp, offsets) + h.upstreamEpicStartOffsets)
  }

  /** `getRetractTopicPartitions`: the partitions whose retraction record can be read. */
  function GetRetractTopicPartitions(h: Helper): (r: set<TopicPartition>)
    ensures forall tp :: tp in r <==> GetRetractInfo(h, tp).Success?
  {
    h.retractingInfo.Keys
  }

  /** The message of the `IllegalStateException` for a partition that is not retracting. */
  function NotRetractingMessage(tp: TopicPartition): (r: string)
    ensures exists d ::
      && ParseDecimal(d) == Some(tp.partition as int)
      && r == "the topic partition: " + tp.topic + ", " + d + " is not in retracting state"
  {
    DecimalRoundTrip(tp.partition);
    "the topic partition: " + tp.topic + ", " + IntToDecimal(tp.partition) + " is not in retracting state"
  }

  /** `getRetractInfo`: the stored record, or `IllegalStateException` when the partition is not retracting. */
  function GetRetractInfo(h: Helper, tp: TopicPartition): (r: Result<EpicRetractingInfo, Exception>)
    ensures r.Success? <==> tp in h.retractingInfo
    ensures r.Success? ==> r.value == h.retractingInfo[tp]
    ensures r.Failure? ==> r.error == IllegalState(NotRetractingMessage(tp))
  {
    if tp in h.retractingInfo then Success(h.retractingInfo[tp]) else Failure(IllegalState(NotRetractingMessage(tp)))
  }

  /**
   * `clearEpicStartOffsetsBeforeOrEqual`: prunes the ledger for the
   * partition, upstream id and epic; the retraction records are untouched
   * and the epic's own entry is always gone afterwards.
   */
  function ClearEpicStartOffsetsBeforeOrEqual(h: Helper, tp: TopicPartition, upstreamId: string, epicNo: Long)
    : (r: Helper)
    ensures r.retractingInfo == h.retractingInfo
    ensures r.upstreamEpicStartOffsets == Prune(h.upstreamEpicStartOffsets, tp, upstreamId, epicNo)
    ensures EpicKey(tp, upstreamId, epicNo) !in r.upstreamEpicStartOffsets
  {
    PruneRemovesRetractedEpic(h.upstreamEpicStartOffsets, tp, upstreamId, epicNo);
    h.(upstreamEpicStartOffsets := Prune(h.upstreamEpicStartOffsets, tp, upstreamId, epicNo))
  }

  /**
   * `suspendRetracting(tp)`: removes the partition's retraction record and
   * prunes the ledger up to the retracted epic. A partition that is not
   * retracting has no record, and reading its fields throws
   * `NullPointerException` with nothing changed.
   */
  function SuspendRetracting(h: Helper, tp: TopicPartition): (r: Result<Helper, Exception>)
    ensures r.Success? <==> tp in h.retractingInfo
    ensures r.Failure? ==> r.error == NullPointer
    ensures r.Success? ==>
      var info := h.retractingInfo[tp];
      && r.value.retractingInfo == h.retractingInfo - {tp}
      && r.value.upstreamEpicStartOffsets == Prune(h.upstreamEpicStartOffsets, tp, info.upstreamId, info.epicNo)
      && EpicKey(tp, info.upstreamId, info.epicNo) !in r.value.upstreamEpicStartOffsets
  {
    if tp !in h.retractingInfo then Failure(NullPointer)
    else
      var info := h.retractingInfo[tp];
      Success(ClearEpicStartOffsetsBeforeOrEqual(
        h.(retractingInfo := h.retractingInfo - {tp}), tp, info.upstreamId, info.epicNo))
  }

  /**
   * `suspendRetracting(tp)` with `clearEpicStartOffsetsBeforeOrEqual` as
   * written (`EpicLedger.ClearAsWritten`): besides the
   * `NullPointerException` of a partition that is not retracting, it throws
   * `ConcurrentModificationException` exactly when a selected key is
   * followed by another head-map key. When it returns, it agrees with
   * `SuspendRetracting`.
   */
  ghost function SuspendRetractingAsWritten(h: Helper, tp: TopicPartition): (r: Result<Helper, Exception>)
    ensures tp !in h.retractingInfo ==> r == Failure(NullPointer)
    ensures tp in h.retractingInfo ==>
      var info := h.retractingInfo[tp];
      && (r.Success? <==> !SelectedKeyNotLast(h.upstreamEpicStartOffsets, tp, info.upstreamId, info.epicNo))
      && (r.Failure? ==> r.error == ConcurrentModification)
    ensures r.Success? ==> r == SuspendRetracting(h, tp)
  {
    if tp !in h.retractingInfo then Failure(NullPointer)
    else
      var info := h.retractingInfo[tp];
      match ClearAsWritten(h.upstreamEpicStartOffsets, tp, info.upstreamId, info.epicNo)
      case Failure(e) => Failure(e)
      case Success(ledger) => Success(Helper(h.retractingInfo - {tp}, ledger))
  }

  /** The state a Java call leaves behind, and the exception it threw, if any. */
  datatype Outcome = Outcome(state: Helper, thrown: Option<Exception>)

  predicate Distinct(tps: seq<TopicPartition>) {
    forall i, j :: 0 <= i < j < |tps| ==> tps[i] != tps[j]
  }

  /** Every entry of `small` is in `big` with the same value. */
  predicate SubLedger(small: Ledger, big: Ledger) {
    forall k :: k in small ==> k in big && small[k] == big[k]
  }

  /**
   * `suspendRetracting(Collection)`: suspends the partitions in order. The
   * first one that is not retracting (including a repeat of one already
   * suspended) throws, leaving the work done on the earlier ones in place.
   */
  function SuspendRetractingAll(h: Helper, tps: seq<TopicPartition>): (r: Outcome)
    ensures r.thrown.None? <==> Distinct(tps) && forall i :: 0 <= i < |tps| ==> tps[i] in h.retractingInfo
    ensures r.thrown.Some? ==> r.thrown.value == NullPointer
    decreases |tps|
  {
    if |tps| == 0 then Outcome(h, None)
    else
      match SuspendRetracting(h, tps[0])
      case Failure(e) => Outcome(h, Some(e))
      case Success(next) =>
        var rest := tps[1..];
        assert forall i :: 1 <= i < |tps| ==> tps[i] == rest[i - 1];
        assert Distinct(tps) <==> tps[0] !in rest && Distinct(rest);
        SuspendRetractingAll(next, rest)
  }

  /**
   * Whether or not the batch throws, the records left are original ones and
   * every partition outside the batch keeps its record.
   */
  lemma {:induction false} SuspendRetractingAllFrame(h: Helper, tps: seq<TopicPartition>)
    ensures forall tp :: tp in SuspendRetractingAll(h, tps).state.retractingInfo ==>
      tp in h.retractingInfo && SuspendRetractingAll(h, tps).state.retractingInfo[tp] == h.retractingInfo[tp]
    ensures forall tp :: tp in h.retractingInfo && tp !in tps ==> tp in SuspendRetractingAll(h, tps).state.retractingInfo
    decreases |tps|
  {
    if |tps| > 0 {
      match SuspendRetracting(h, tps[0])
      case Failure(_) =>
      case Success(next) =>
        var rest := tps[1..];
        var r := SuspendRetractingAll(h, tps);
        assert r == SuspendRetractingAll(next, rest);
        assert next.retractingInfo == h.retractingInfo - {tps[0]};
        SuspendRetractingAllFrame(next, rest);
        forall tp | tp in h.retractingInfo && tp !in tps
          ensures tp in r.state.retractingInfo
        {
          assert tp != tps[0] && tp !in rest;
        }
    }
  }

  /** A batch that completes drops exactly its partitions' records. */
  lemma {:induction false} SuspendRetractingAllDropsBatch(h: Helper, tps: seq<TopicPartition>)
    requires SuspendRetractingAll(h, tps).thrown.None?
    ensures forall tp :: tp in SuspendRetractingAll(h, tps).state.retractingInfo <==> tp in h.retractingInfo && tp !in tps
    decreases |tps|
  {
    if |tps| > 0 {
      var next := SuspendRetracting(h, tps[0]).value;
      var rest := tps[1..];
      assert SuspendRetractingAll(h, tps) == SuspendRetractingAll(next, rest);
      SuspendRetractingAllDropsBatch(next, rest);
      assert next.retractingInfo == h.retractingInfo - {tps[0]};
      assert forall tp :: tp in tps <==> tp == tps[0] || tp in rest;
    }
  }

  /** Whether or not the batch throws, the ledger only loses entries; no value changes. */
  lemma {:induction false} SuspendRetractingAllShrinksLedger(h: Helper, tps: seq<TopicPartition>)
    ensures SubLedger(SuspendRetractingAll(h, tps).state.upstreamEpicStartOffsets, h.upstreamEpicStartOffsets)
    decreases |tps|
  {
    if |tps| > 0 {
      match SuspendRetracting(h, tps[0])
      case Failure(_) =>
      case Success(next) =>
        SuspendRetractingAllShrinksLedger(next, tps[1..]);
    }
  }

  /** A batch that completes has pruned every one of its retracted epics' entries from the ledger. */
  lemma {:induction false} SuspendRetractingAllPrunes(h: Helper, tps: seq<TopicPartition>)
    requires SuspendRetractingAll(h, tps).thrown.None?
    ensures forall i :: 0 <= i < |tps| ==>
      EpicKey(tps[i], h.retractingInfo[tps[i]].upstreamId, h.retractingInfo[tps[i]].epicNo)
        !in SuspendRetractingAll(h, tps).state.upstreamEpicStartOffsets
    decreases |tps|
  {
    if |tps| > 0 {
      var next := SuspendRetracting(h, tps[0]).value;
      var rest := tps[1..];
      var r := SuspendRetractingAll(h, tps);
      assert r == SuspendRetractingAll(next, rest);
      SuspendRetractingAllPrunes(next, rest);
      SuspendRetractingAllShrinksLedger(next, rest);
      forall i | 0 <= i < |tps|
        ensures EpicKey(tps[i], h.retractingInfo[tps[i]].upstreamId, h.retractingInfo[tps[i]].epicNo)
          !in r.state.upstreamEpicStartOffsets
      {
        if i == 0 {
          var info := h.retractingInfo[tps[0]];
          assert EpicKey(tps[0], info.upstreamId, info.epicNo) !in next.upstreamEpicStartOffsets;
        } else {
          assert tps[i] == rest[i - 1] && tps[i] != tps[0];
        }
      }
    }
  }

  /** A batch of one partition is `suspendRetracting` of that partition, with a throw leaving the helper as it was. */
  lemma SuspendRetractingAllSingle(h: Helper, tp: TopicPartition)
    ensures var r := SuspendRetractingAll(h, [tp]);
      var one := SuspendRetracting(h, tp);
      && (one.Success? ==> r == Outcome(one.value, None))
      && (one.Failure? ==> r == Outcome(h, Some(one.error)))
  {
    assert [tp][1..] == [];
  }

  /**
   * Suspending `a + b` suspends `a` and then, unless that threw, `b` from
   * where `a` left the helper.
   */
  lemma {:induction false} SuspendRetractingAllAppend(h: Helper, a: seq<TopicPartition>, b: seq<TopicPartition>)
    ensures var first := SuspendRetractingAll(h, a);
      SuspendRetractingAll(h, a + b)
        == if first.thrown.Some? then first else SuspendRetractingAll(first.state, b)
    decreases |a|
  {
    if |a| == 0 {
      assert a + b == b;
    } else {
      assert (a + b)[0] == a[0] && (a + b)[1..] == a[1..] + b;
      match SuspendRetracting(h, a[0])
      case Failure(_) =>
      case Success(next) =>
        SuspendRetractingAllAppend(next, a[1..], b);
    }
  }

  /**
   * A batch that throws stops at some partition `tps[j]`: the partitions
   * before it were all suspended, the helper is left exactly as suspending
   * them alone leaves it, and `tps[j]` is not retracting in that state.
   */
  lemma {:induction false} SuspendRetractingAllStopsAtFailure(h: Helper, tps: seq<TopicPartition>) returns (j: nat)
    requires SuspendRetractingAll(h, tps).thrown.Some?
    ensures j < |tps|
    ensures SuspendRetractingAll(h, tps[..j]).thrown.None?
    ensures SuspendRetractingAll(h, tps).state == SuspendRetractingAll(h, tps[..j]).state
    ensures tps[j] !in SuspendRetractingAll(h, tps).state.retractingInfo
    decreases |tps|
  {
    match SuspendRetracting(h, tps[0])
    case Failure(_) =>
      j := 0;
      assert tps[..0] == [];
    case Success(next) =>
      var rest := tps[1..];
      var k := SuspendRetractingAllStopsAtFailure(next, rest);
      j := k + 1;
      assert tps[..j][0] == tps[0] && tps[..j][1..] == rest[..k];
      assert tps[j] == rest[k];
  }

  /**
   * `startRetracting`: when the ledger has no start offset for the epic, the
   * interval was never read and nothing changes. Otherwise the partition's
   * record becomes (epic, upstream id, recorded start offset, resume
   * offset), replacing any earlier one; other partitions and the ledger are
   * untouched.
   */
  function StartRetracting(h: Helper, tp: TopicPartition, upstreamId: string, epicNo: Long, revertStartingOffset: Long)
    : (r: Helper)
    ensures r.upstreamEpicStartOffsets == h.upstreamEpicStartOffsets
    ensures EpicKey(tp, upstreamId, epicNo) !in h.upstreamEpicStartOffsets ==> r == h
    ensures EpicKey(tp, upstreamId, epicNo) in h.upstreamEpicStartOffsets ==>
      && r.retractingInfo.Keys == h.retractingInfo.Keys + {tp}
      && r.retractingInfo[tp] == EpicRetractingInfo(
           epicNo, upstreamId, h.upstreamEpicStartOffsets[EpicKey(tp, upstreamId, epicNo)], revertStartingOffset)
      && forall other :: other in h.retractingInfo && other != tp ==> r.retractingInfo[other] == h.retractingInfo[other]
  {
    var key := EpicKey(tp, upstreamId, epicNo);
    if key !in h.upstreamEpicStartOffsets then h
    else
      var retractStoppingOffset := h.upstreamEpicStartOffsets[key];
      h.(retractingInfo := h.retractingInfo[tp := EpicRetractingInfo(epicNo, upstreamId, retractStoppingOffset, revertStartingOffset)])
  }

  /**
   * `initialEpicStartOffsetIfEmpty`: records the epic's start offset unless
   * one is already recorded (first write wins); nothing else changes.
   */
  function InitialEpicStartOffsetIfEmpty(h: Helper, tp: TopicPartition, upstreamId: string, epicNo: Long, startOffset: Long)
    : (r: Helper)
    ensures r.retractingInfo == h.retractingInfo
    ensures EpicKey(tp, upstreamId, epicNo) in h.upstreamEpicStartOffsets ==> r == h
    ensures EpicKey(tp, upstreamId, epicNo) !in h.upstreamEpicStartOffsets ==>
      r.upstreamEpicStartOffsets == h.upstreamEpicStartOffsets[EpicKey(tp, upstreamId, epicNo) := startOffset]
  {
    h.(upstreamEpicStartOffsets := PutIfAbsent(h.upstreamEpicStartOffsets, EpicKey(tp, upstreamId, epicNo), startOffset))
  }

  // ---------------------------------------------------------------------------
  // Properties relating several operations.
  // ---------------------------------------------------------------------------

  /** Recording an epic's start twice keeps the first offset: the second call changes nothing. */
  lemma FirstWriteWins(h: Helper, tp: TopicPartition, upstreamId: string, epicNo: Long, first: Long, second: Long)
    ensures var once := InitialEpicStartOffsetIfEmpty(h, tp, upstreamId, epicNo, first);
      && InitialEpicStartOffsetIfEmpty(once, tp, upstreamId, epicNo, second) == once
      && once.upstreamEpicStartOffsets[EpicKey(tp, upstreamId, epicNo)]
         == if EpicKey(tp, upstreamId, epicNo) in h.upstreamEpicStartOffsets
            then h.upstreamEpicStartOffsets[EpicKey(tp, upstreamId, epicNo)] else first
  {
  }

  /**
   * Recording an epic's start and then starting its retraction yields a
   * record that stops at the recorded start and resumes at the given offset.
   */
  lemma RetractionWindow(h: Helper, tp: TopicPartition, upstreamId: string, epicNo: Long, start: Long, revert: Long)
    requires EpicKey(tp, upstreamId, epicNo) !in h.upstreamEpicStartOffsets
    ensures var recorded := InitialEpicStartOffsetIfEmpty(h, tp, upstreamId, epicNo, start);
      GetRetractInfo(StartRetracting(recorded, tp, upstreamId, epicNo, revert), tp)
        == Success(EpicRetractingInfo(epicNo, upstreamId, start, revert))
  {
  }

  /** An epic whose start was never recorded does not put a forward-reading partition into retraction. */
  lemma UnreadEpicStaysForward(h: Helper, tp: TopicPartition, upstreamId: string, epicNo: Long, revert: Long)
    requires EpicKey(tp, upstreamId, epicNo) !in h.upstreamEpicStartOffsets
    requires tp !in GetRetractTopicPartitions(h)
    ensures tp !in GetRetractTopicPartitions(StartRetracting(h, tp, upstreamId, epicNo, revert))
    ensures GetRetractInfo(StartRetracting(h, tp, upstreamId, epicNo, revert), tp).Failure?
  {
  }

  /**
   * Starting a retraction and then suspending it leaves every other
   * partition's record as it was, forgets this partition's, and prunes the
   * epic's entry from the ledger.
   */
  lemma StartThenSuspend(h: Helper, tp: TopicPartition, upstreamId: string, epicNo: Long, revert: Long)
    requires EpicKey(tp, upstreamId, epicNo) in h.upstreamEpicStartOffsets
    ensures var r := SuspendRetracting(StartRetracting(h, tp, upstreamId, epicNo, revert), tp);
      && r.Success?
      && r.value.retractingInfo == h.retractingInfo - {tp}
      && r.value.upstreamEpicStartOffsets == Prune(h.upstreamEpicStartOffsets, tp, upstreamId, epicNo)
      && EpicKey(tp, upstreamId, epicNo) !in r.value.upstreamEpicStartOffsets
    ensures var w := SuspendRetractingAsWritten(StartRetracting(h, tp, upstreamId, epicNo, revert), tp);
      && (w.Success? <==> !SelectedKeyNotLast(h.upstreamEpicStartOffsets, tp, upstreamId, epicNo))
      && (w.Failure? ==> w.error == ConcurrentModification)
  {
    var started := StartRetracting(h, tp, upstreamId, epicNo, revert);
    assert started.retractingInfo - {tp} == h.retractingInfo - {tp};
  }

  /** Restoring a retracting log split makes its record readable exactly as the split carried it. */
  lemma RestoredRetraction(h: Helper, s: Split)
    requires s.LogSplit? && s.isRetracting
    ensures GetRetractInfo(InitializedState(h, s), s.topicPartition)
         == Success(EpicRetractingInfo(s.retractingEpicNo, s.retractingUpstreamId, s.retractStopOffset, s.revertStartOffset))
  {
  }

  /**
   * A start offset restored from a split under `upstreamId_epicNo` is the
   * one a later `startRetracting` of that epic finds, unless the ledger
   * already had a value for the key (which then wins).
   */
  lemma RestoredOffsetDrivesRetraction(h: Helper, s: Split, upstreamId: string, epicNo: Long, revert: Long)
    requires s.LogSplit?
    requires upstreamId + "_" + IntToDecimal(epicNo) in s.upStreamEpicStartOffsets
    ensures var key := EpicKey(s.topicPartition, upstreamId, epicNo);
      var r := StartRetracting(InitializedState(h, s), s.topicPartition, upstreamId, epicNo, revert);
      GetRetractInfo(r, s.topicPartition).Success?
      && GetRetractInfo(r, s.topicPartition).value.retractStoppingOffset
         == if key in h.upstreamEpicStartOffsets then h.upstreamEpicStartOffsets[key]
            else s.upStreamEpicStartOffsets[upstreamId + "_" + IntToDecimal(epicNo)]
  {
    var e := upstreamId + "_" + IntToDecimal(epicNo);
    assert EpicKey(s.topicPartition, upstreamId, epicNo) == SplitEntryKey(s.topicPartition, e);
  }
}
