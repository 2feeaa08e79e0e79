/**
 * The epic start-offset ledger: a `TreeMap<String, Long>` from epic keys to
 * the offset at which that epic was first read, with first-write-wins
 * insertion and range pruning.
 */
module EpicLedger {
  import opened Wrappers
  import opened JavaLang
  import opened JavaStrings
  import opened LedgerKeys

  /** `upstreamEpicStartOffsets`: epic key to epic start offset. */
  type Ledger = map<string, Long>

  /** `Map.putIfAbsent`: a key already present keeps its value; otherwise the pair is added. */
  function PutIfAbsent(ledger: Ledger, key: string, offset: Long): (r: Ledger)
    ensures r.Keys == ledger.Keys + {key}
    ensures key !in ledger ==> r[key] == offset
    ensures forall k :: k in ledger ==> r[k] == ledger[k]
  {
    if key in ledger then ledger else ledger[key := offset]
  }

  /**
   * A key is cleared for (tp, upstreamId, epicNo) when it lies in
   * `headMap(topic_partition_upstreamId_epicNo, true)` and contains
   * `topic_partition_upstreamId` as a substring.
   */
  predicate Selected(key: string, tp: TopicPartition, upstreamId: string, epicNo: Long): (r: bool)
    ensures key == EpicKey(tp, upstreamId, epicNo) ==> r
    ensures r ==> |UpstreamPrefix(tp, upstreamId)| <= |key|
  {
    PrefixContained(UpstreamPrefix(tp, upstreamId), EpicKey(tp, upstreamId, epicNo));
    && AtMost(key, EpicKey(tp, upstreamId, epicNo))
    && Contains(key, UpstreamPrefix(tp, upstreamId))
  }

  /**
   * `clearEpicStartOffsetsBeforeOrEqual` on the ledger, as its loop is meant
   * to work: every selected key is removed, every other entry is kept as it
   * was.
   */
  function Prune(ledger: Ledger, tp: TopicPartition, upstreamId: string, epicNo: Long): (r: Ledger)
    ensures forall k :: k in r <==> k in ledger && !Selected(k, tp, upstreamId, epicNo)
    ensures forall k :: k in r ==> r[k] == ledger[k]
  {
    map k | k in ledger && !Selected(k, tp, upstreamId, epicNo) :: ledger[k]
  }

  /** Knowing which keys are selected determines the pruned ledger. */
  lemma PruneExactly(ledger: Ledger, tp: TopicPartition, upstreamId: string, epicNo: Long, removed: set<string>)
    requires forall k :: k in ledger ==> (Selected(k, tp, upstreamId, epicNo) <==> k in removed)
    ensures Prune(ledger, tp, upstreamId, epicNo) == ledger - removed
  {
  }

  /** Pruning an epic always removes that epic's own entry. */
  lemma PruneRemovesRetractedEpic(ledger: Ledger, tp: TopicPartition, upstreamId: string, epicNo: Long)
    ensures EpicKey(tp, upstreamId, epicNo) !in Prune(ledger, tp, upstreamId, epicNo)
  {
    PrefixContained(UpstreamPrefix(tp, upstreamId), EpicKey(tp, upstreamId, epicNo));
  }

  /**
   * Non-negative epics of the same upstream and partition whose numbers have
   * as many digits as the pruned one, and are not larger, are pruned with it.
   * (Negative epics are not covered: `"-2"` sorts after `"-1"`.)
   */
  lemma PruneRemovesEarlierEpicsOfSameWidth(ledger: Ledger, tp: TopicPartition, upstreamId: string, epicNo: Long, earlier: Long)
    requires 0 <= earlier <= epicNo
    requires |IntToDecimal(earlier)| == |IntToDecimal(epicNo)|
    ensures EpicKey(tp, upstreamId, earlier) !in Prune(ledger, tp, upstreamId, epicNo)
  {
    var p := UpstreamPrefix(tp, upstreamId) + "_";
    DecimalOrderSameWidth(earlier, epicNo);
    CompareToCommonPrefix(p, IntToDecimal(earlier), IntToDecimal(epicNo));
    PrefixContained(UpstreamPrefix(tp, upstreamId), EpicKey(tp, upstreamId, earlier));
  }

  /** Keys sorting after the epic's key are never pruned. */
  lemma PruneKeepsLaterKeys(ledger: Ledger, tp: TopicPartition, upstreamId: string, epicNo: Long, k: string)
    requires k in ledger
    requires Before(EpicKey(tp, upstreamId, epicNo), k)
    ensures k in Prune(ledger, tp, upstreamId, epicNo)
    ensures Prune(ledger, tp, upstreamId, epicNo)[k] == ledger[k]
  {
    CompareToAntisymmetric(EpicKey(tp, upstreamId, epicNo), k);
  }

  /**
   * Conversely, a later epic of the same upstream and partition, pruned up to
   * a non-negative epic whose number has as many digits, survives with its
   * offset.
   */
  lemma PruneKeepsLaterEpicsOfSameWidth(ledger: Ledger, tp: TopicPartition, upstreamId: string, epicNo: Long, later: Long)
    requires 0 <= epicNo < later
    requires |IntToDecimal(epicNo)| == |IntToDecimal(later)|
    requires EpicKey(tp, upstreamId, later) in ledger
    ensures EpicKey(tp, upstreamId, later) in Prune(ledger, tp, upstreamId, epicNo)
    ensures Prune(ledger, tp, upstreamId, epicNo)[EpicKey(tp, upstreamId, later)] == ledger[EpicKey(tp, upstreamId, later)]
  {
    var p := UpstreamPrefix(tp, upstreamId) + "_";
    DecimalOrderSameWidth(epicNo, later);
    if IntToDecimal(epicNo) == IntToDecimal(later) {
      DecimalInjective(epicNo, later);
    }
    CompareToCommonPrefix(p, IntToDecimal(epicNo), IntToDecimal(later));
    PruneKeepsLaterKeys(ledger, tp, upstreamId, epicNo, EpicKey(tp, upstreamId, later));
  }

  /** Pruning twice with the same arguments prunes nothing more. */
  lemma PruneIdempotent(ledger: Ledger, tp: TopicPartition, upstreamId: string, epicNo: Long)
    ensures Prune(Prune(ledger, tp, upstreamId, epicNo), tp, upstreamId, epicNo) == Prune(ledger, tp, upstreamId, epicNo)
  {
  }

  // ---------------------------------------------------------------------------
  // The pruning loop as written: it removes keys from the TreeMap while it
  // iterates over the key set of a live `headMap` view of that same map.
  // ---------------------------------------------------------------------------

  /** The key set of `headMap(target, true)`. */
  function HeadKeys(ledger: Ledger, target: string): (r: set<string>)
    ensures forall k :: k in r <==> k in ledger && AtMost(k, target)
  {
    set k | k in ledger && AtMost(k, target)
  }

  ghost predicate StrictlyAscending(keys: seq<string>) {
    forall i, j :: 0 <= i < j < |keys| ==> Before(keys[i], keys[j])
  }

  /** A non-empty set of strings has a least element under `compareTo`. */
  lemma {:induction false} LeastExists(keys: set<string>)
    requires keys != {}
    ensures exists m :: m in keys && forall k :: k in keys ==> AtMost(m, k)
    decreases keys
  {
    var x :| x in keys;
    if keys == {x} {
      assert forall k :: k in keys ==> AtMost(x, k);
    } else {
      LeastExists(keys - {x});
      var m :| m in keys - {x} && forall k :: k in keys - {x} ==> AtMost(m, k);
      AtMostTotal(x, m);
      if AtMost(x, m) {
        forall k | k in keys
          ensures AtMost(x, k)
        {
          if k != x {
            AtMostTransitive(x, m, k);
          }
        }
      } else {
        assert forall k :: k in keys ==> AtMost(m, k);
      }
    }
  }

  /** Putting a least, new element in front of an ascending sequence keeps it ascending. */
  lemma AscendingCons(m: string, rest: seq<string>)
    requires StrictlyAscending(rest)
    requires forall k :: k in rest ==> k != m && AtMost(m, k)
    ensures StrictlyAscending([m] + rest)
  {
    var s := [m] + rest;
    forall i, j | 0 <= i < j < |s|
      ensures Before(s[i], s[j])
    {
      if i == 0 {
        assert s[j] == rest[j - 1] && rest[j - 1] in rest;
      } else {
        assert s[i] == rest[i - 1] && s[j] == rest[j - 1];
      }
    }
  }

  /** The order in which a TreeMap's key-set iterator visits `keys`. */
  ghost function Ascending(keys: set<string>): (r: seq<string>)
    ensures forall k :: k in r <==> k in keys
    ensures StrictlyAscending(r)
    decreases keys
  {
    if keys == {} then []
    else
      LeastExists(keys);
      var m :| m in keys && forall k :: k in keys ==> AtMost(m, k);
      var rest := Ascending(keys - {m});
      AscendingCons(m, rest);
      [m] + rest
  }

  /**
   * The `for` loop over the head map's key set, from position `i`.
   * `modified` records that the map was changed behind the iterator's back:
   * the iterator's next step then throws `ConcurrentModificationException`.
   * The loop ends without checking when no key is left.
   */
  function RemoveWhileIterating(ledger: Ledger, keys: seq<string>, i: nat, prefix: string, modified: bool)
    : (r: Result<Ledger, Exception>)
    requires i <= |keys|
    ensures r.Failure? ==> r.error == ConcurrentModification
    ensures r.Success? ==> forall k :: k in r.value ==> k in ledger && r.value[k] == ledger[k]
    ensures r.Success? ==> forall k :: k in ledger && k !in keys[i..] ==> k in r.value
    decreases |keys| - i
  {
    if i == |keys| then Success(ledger)
    else if modified then Failure(ConcurrentModification)
    else if Contains(keys[i], prefix) then RemoveWhileIterating(ledger - {keys[i]}, keys, i + 1, prefix, true)
    else RemoveWhileIterating(ledger, keys, i + 1, prefix, false)
  }

  /** The keys at positions `i..` that contain `prefix`. */
  ghost function MatchingFrom(keys: seq<string>, i: nat, prefix: string): set<string> {
    set j | i <= j < |keys| && Contains(keys[j], prefix) :: keys[j]
  }

  /**
   * The loop throws exactly when a key it removes is not the last one it
   * visits; otherwise it has removed every key that contains the prefix.
   */
  lemma {:induction false} RemoveWhileIteratingOutcome(ledger: Ledger, keys: seq<string>, i: nat, prefix: string)
    requires i <= |keys|
    ensures RemoveWhileIterating(ledger, keys, i, prefix, false).Failure?
        <==> exists j :: i <= j < |keys| - 1 && Contains(keys[j], prefix)
    ensures RemoveWhileIterating(ledger, keys, i, prefix, false).Failure?
        ==> RemoveWhileIterating(ledger, keys, i, prefix, false).error == ConcurrentModification
    ensures RemoveWhileIterating(ledger, keys, i, prefix, false).Success?
        ==> RemoveWhileIterating(ledger, keys, i, prefix, false).value == ledger - MatchingFrom(keys, i, prefix)
    decreases |keys| - i
  {
    if i < |keys| {
      if Contains(keys[i], prefix) {
        if i + 1 == |keys| {
          assert MatchingFrom(keys, i, prefix) == {keys[i]};
        }
      } else {
        RemoveWhileIteratingOutcome(ledger, keys, i + 1, prefix);
        assert MatchingFrom(keys, i, prefix) == MatchingFrom(keys, i + 1, prefix);
      }
    }
  }

  /** In a strictly ascending sequence, a smaller element sits at a smaller index. */
  lemma AscendingIndexOrder(keys: seq<string>, a: int, b: int)
    requires StrictlyAscending(keys)
    requires 0 <= a < |keys| && 0 <= b < |keys|
    requires Before(keys[a], keys[b])
    ensures a < b
  {
    if b < a {
      CompareToAntisymmetric(keys[a], keys[b]);
    }
  }

  /** A key of `headMap(target, true)` containing `prefix` that another head-map key sorts after. */
  ghost predicate MatchNotLast(ledger: Ledger, target: string, prefix: string) {
    exists k1, k2 :: k1 in ledger && k2 in ledger
      && AtMost(k1, target) && Contains(k1, prefix)
      && AtMost(k2, target) && Before(k1, k2)
  }

  /** Over the ascending head-map keys, the loop removes the head-map keys containing the prefix. */
  lemma MatchingHeadKeys(ledger: Ledger, keys: seq<string>, target: string, prefix: string)
    requires forall k :: k in keys <==> k in ledger && AtMost(k, target)
    ensures forall k :: k in MatchingFrom(keys, 0, prefix) <==> k in ledger && AtMost(k, target) && Contains(k, prefix)
  {
    forall k | k in ledger && AtMost(k, target) && Contains(k, prefix)
      ensures k in MatchingFrom(keys, 0, prefix)
    {
      var j :| 0 <= j < |keys| && keys[j] == k;
    }
  }

  /** Over the ascending head-map keys, a removal before the last key is a selected key that is not last. */
  lemma NotLastMatchIff(ledger: Ledger, keys: seq<string>, target: string, prefix: string)
    requires forall k :: k in keys <==> k in ledger && AtMost(k, target)
    requires StrictlyAscending(keys)
    ensures (exists j :: 0 <= j < |keys| - 1 && Contains(keys[j], prefix)) <==> MatchNotLast(ledger, target, prefix)
  {
    if exists j :: 0 <= j < |keys| - 1 && Contains(keys[j], prefix) {
      var j :| 0 <= j < |keys| - 1 && Contains(keys[j], prefix);
      var last := keys[|keys| - 1];
      assert Before(keys[j], last);
      assert keys[j] in keys && last in keys;
    }
    if MatchNotLast(ledger, target, prefix) {
      var k1, k2 :| k1 in ledger && k2 in ledger
        && AtMost(k1, target) && Contains(k1, prefix) && AtMost(k2, target) && Before(k1, k2);
      var a :| 0 <= a < |keys| && keys[a] == k1;
      var b :| 0 <= b < |keys| && keys[b] == k2;
      AscendingIndexOrder(keys, a, b);
    }
  }

  /** A selected key that some other head-map key sorts after. */
  ghost predicate SelectedKeyNotLast(ledger: Ledger, tp: TopicPartition, upstreamId: string, epicNo: Long) {
    MatchNotLast(ledger, EpicKey(tp, upstreamId, epicNo), UpstreamPrefix(tp, upstreamId))
  }

  lemma ClearAsWrittenFacts(ledger: Ledger, tp: TopicPartition, upstreamId: string, epicNo: Long)
    ensures var keys := Ascending(HeadKeys(ledger, EpicKey(tp, upstreamId, epicNo)));
      var r := RemoveWhileIterating(ledger, keys, 0, UpstreamPrefix(tp, upstreamId), false);
      && (r.Success? ==> r.value == Prune(ledger, tp, upstreamId, epicNo))
      && (r.Failure? ==> r.error == ConcurrentModification)
      && (r.Failure? <==> SelectedKeyNotLast(ledger, tp, upstreamId, epicNo))
  {
    var target := EpicKey(tp, upstreamId, epicNo);
    var prefix := UpstreamPrefix(tp, upstreamId);
    var keys := Ascending(HeadKeys(ledger, target));
    RemoveWhileIteratingOutcome(ledger, keys, 0, prefix);
    MatchingHeadKeys(ledger, keys, target, prefix);
    NotLastMatchIff(ledger, keys, target, prefix);
  }

  /**
   * `clearEpicStartOffsetsBeforeOrEqual` as written. When it returns, it has
   * pruned exactly as intended; it throws `ConcurrentModificationException`
   * exactly when a key it removes is followed by another head-map key.
   */
  ghost function ClearAsWritten(ledger: Ledger, tp: TopicPartition, upstreamId: string, epicNo: Long)
    : (r: Result<Ledger, Exception>)
    ensures r.Success? ==> r.value == Prune(ledger, tp, upstreamId, epicNo)
    ensures r.Failure? ==> r.error == ConcurrentModification
    ensures r.Failure? <==> SelectedKeyNotLast(ledger, tp, upstreamId, epicNo)
  {
    ClearAsWrittenFacts(ledger, tp, upstreamId, epicNo);
    RemoveWhileIterating(ledger, Ascending(HeadKeys(ledger, EpicKey(tp, upstreamId, epicNo))), 0,
                         UpstreamPrefix(tp, upstreamId), false)
  }
}
