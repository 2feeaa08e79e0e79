/**
 * Concrete runs of the helper: the retraction life cycle of one partition,
 * and what pruning does to the keys the string encoding produces.
 */
module Scenarios {
  import opened Wrappers
  import opened JavaLang
  import opened JavaStrings
  import opened LedgerKeys
  import opened EpicLedger
  import opened LogSourceHelper

  const P := TopicPartition("t", 0)

  /**
   * Upstream `job-A` first reads epic 1 at offset 1000. Retracting epic 2,
   * which was never read, changes nothing. Retracting epic 1 stops at 1000
   * and resumes at 1500; suspending it forgets the record and the entry.
   */
  lemma EpicLifeCycle()
    ensures var h1 := InitialEpicStartOffsetIfEmpty(New(), P, "job-A", 1, 1000);
      && StartRetracting(h1, P, "job-A", 2, 1500) == h1
      && var h2 := StartRetracting(h1, P, "job-A", 1, 1500);
      && GetRetractTopicPartitions(h2) == {P}
      && GetRetractInfo(h2, P) == Success(EpicRetractingInfo(1, "job-A", 1000, 1500))
      && SuspendRetracting(h2, P) == Success(New())
      && SuspendRetractingAsWritten(h2, P) == Success(New())
  {
    var h1 := InitialEpicStartOffsetIfEmpty(New(), P, "job-A", 1, 1000);
    assert '_' !in "job-A";
    if EpicKey(P, "job-A", 2) == EpicKey(P, "job-A", 1) {
      EpicKeyInjective(P, "job-A", 2, P, "job-A", 1);
    }
    var h2 := StartRetracting(h1, P, "job-A", 1, 1500);
    PruneRemovesRetractedEpic(h2.upstreamEpicStartOffsets, P, "job-A", 1);
    assert Prune(h2.upstreamEpicStartOffsets, P, "job-A", 1) == map[];
    assert !SelectedKeyNotLast(h2.upstreamEpicStartOffsets, P, "job-A", 1);
  }

  lemma U1Keys()
    ensures EpicKey(P, "u1", 2) == "t_0_u1_2"
    ensures EpicKey(P, "u1", 3) == "t_0_u1_3"
    ensures UpstreamPrefix(P, "u1") == "t_0_u1"
    ensures EpicKey(P, "u2", 2) == "t_0_u2_2"
    ensures EpicKey(P, "u2", 3) == "t_0_u2_3"
    ensures UpstreamPrefix(P, "u2") == "t_0_u2"
  {
  }

  lemma NotContainsU1(s: string)
    requires s == "t_0_u2_2" || s == "t_0_u2_3"
    ensures !Contains(s, "t_0_u1")
  {
    forall i
      ensures !OccursAt(s, "t_0_u1", i)
    {
      if 0 <= i <= 2 {
        assert s[i..i + 6][5] == s[i + 5] != '1';
      }
    }
    ContainsAt(s, "t_0_u1");
  }

  lemma U1Selection()
    ensures AtMost("t_0_u1_2", "t_0_u1_3") && Contains("t_0_u1_2", "t_0_u1")
  {
  }

  /** Of the three keys, only upstream `u1`'s is selected for pruning `u1` up to epic 3. */
  lemma U1OnlySelected()
    ensures Selected("t_0_u1_2", P, "u1", 3)
    ensures !Selected("t_0_u2_2", P, "u1", 3)
    ensures !Selected("t_0_u2_3", P, "u1", 3)
  {
    U1Keys();
    U1Selection();
    NotContainsU1("t_0_u2_2");
    NotContainsU1("t_0_u2_3");
  }

  /** Pruning upstream `u1` up to epic 3 leaves the entries of upstream `u2` of the same partition alone. */
  lemma PruneLeavesOtherUpstream(ledger: Ledger)
    requires ledger == map[EpicKey(P, "u1", 2) := 20, EpicKey(P, "u2", 2) := 21, EpicKey(P, "u2", 3) := 31]
    ensures Prune(ledger, P, "u1", 3) == map[EpicKey(P, "u2", 2) := 21, EpicKey(P, "u2", 3) := 31]
  {
    U1Keys();
    PruneU1Literal(ledger);
  }

  lemma PruneU1Literal(ledger: Ledger)
    requires ledger == map["t_0_u1_2" := 20, "t_0_u2_2" := 21, "t_0_u2_3" := 31]
    ensures Prune(ledger, P, "u1", 3) == map["t_0_u2_2" := 21, "t_0_u2_3" := 31]
  {
    U1OnlySelected();
    PruneExactly(ledger, P, "u1", 3, {"t_0_u1_2"});
    RemoveU1Entry(ledger);
  }

  /** Proof step of `PruneU1Literal`: the map difference on the literal ledger. */
  lemma RemoveU1Entry(ledger: Ledger)
    requires ledger == map["t_0_u1_2" := 20, "t_0_u2_2" := 21, "t_0_u2_3" := 31]
    ensures ledger - {"t_0_u1_2"} == map["t_0_u2_2" := 21, "t_0_u2_3" := 31]
  {
  }

  /**
   * The other direction: pruning upstream `u2` up to epic 3 reaches `u1`'s
   * key, which sorts inside the head map, and keeps it only because it does
   * not contain `t_0_u2`.
   */
  lemma PruneKeepsHeadKeyOfOtherUpstream(ledger: Ledger)
    requires ledger == map[EpicKey(P, "u1", 2) := 20, EpicKey(P, "u2", 2) := 21, EpicKey(P, "u2", 3) := 31]
    ensures AtMost(EpicKey(P, "u1", 2), EpicKey(P, "u2", 3))
    ensures Prune(ledger, P, "u2", 3) == map[EpicKey(P, "u1", 2) := 20]
  {
    U1Keys();
    U2OnlySelected();
    PruneU2Literal(ledger);
  }

  /** Proof step of `PruneKeepsHeadKeyOfOtherUpstream`: `t_0_u1_2` does not contain `t_0_u2`. */
  lemma NotContainsU2()
    ensures !Contains("t_0_u1_2", "t_0_u2")
  {
    var s := "t_0_u1_2";
    forall i
      ensures !OccursAt(s, "t_0_u2", i)
    {
      if i == 0 {
        assert s[0..6][5] == '1';
      } else if 0 < i <= 2 {
        assert s[i..i + 6][0] == s[i] != 't';
      }
    }
    ContainsAt(s, "t_0_u2");
  }

  /** Proof step of `PruneKeepsHeadKeyOfOtherUpstream`: pruning `u2` up to epic 3 selects exactly the two `u2` keys. */
  lemma U2OnlySelected()
    ensures AtMost("t_0_u1_2", "t_0_u2_3")
    ensures !Selected("t_0_u1_2", P, "u2", 3)
    ensures Selected("t_0_u2_2", P, "u2", 3)
    ensures Selected("t_0_u2_3", P, "u2", 3)
  {
    U1Keys();
    NotContainsU2();
    U1BeforeU2();
    U2Contained();
  }

  /** Proof step of `U2OnlySelected`: both keys sort at or before `t_0_u2_3`. */
  lemma U1BeforeU2()
    ensures AtMost("t_0_u1_2", "t_0_u2_3")
    ensures AtMost("t_0_u2_2", "t_0_u2_3")
  {
  }

  /** Proof step of `U2OnlySelected`: the `u2` keys contain the `u2` prefix. */
  lemma U2Contained()
    ensures Contains("t_0_u2_2", "t_0_u2") && Contains("t_0_u2_3", "t_0_u2")
  {
    PrefixContained("t_0_u2", "t_0_u2_2");
    PrefixContained("t_0_u2", "t_0_u2_3");
  }

  /** Proof step of `PruneKeepsHeadKeyOfOtherUpstream`: the same prune on the spelled-out key strings. */
  lemma PruneU2Literal(ledger: Ledger)
    requires ledger == map["t_0_u1_2" := 20, "t_0_u2_2" := 21, "t_0_u2_3" := 31]
    ensures Prune(ledger, P, "u2", 3) == map["t_0_u1_2" := 20]
  {
    U2OnlySelected();
    PruneExactly(ledger, P, "u2", 3, {"t_0_u2_2", "t_0_u2_3"});
    RemoveU2Entries(ledger);
  }

  /** Proof step of `PruneU2Literal`: the map difference on the literal ledger. */
  lemma RemoveU2Entries(ledger: Ledger)
    requires ledger == map["t_0_u1_2" := 20, "t_0_u2_2" := 21, "t_0_u2_3" := 31]
    ensures ledger - {"t_0_u2_2", "t_0_u2_3"} == map["t_0_u1_2" := 20]
  {
  }

  /**
   * Epic numbers are compared as text: pruning up to epic 3 also removes
   * epic 10 (`"10"` sorts before `"3"`).
   */
  lemma PruneComparesEpicsAsText()
    ensures Prune(map[EpicKey(P, "u", 10) := 5], P, "u", 3) == map[]
  {
    assert EpicKey(P, "u", 10) == "t_0_u_10";
    assert EpicKey(P, "u", 3) == "t_0_u_3";
    assert UpstreamPrefix(P, "u") == "t_0_u";
    assert Selected("t_0_u_10", P, "u", 3);
  }

  /**
   * Negative epic numbers do not prune numerically: `"-2"` sorts after
   * `"-1"`, so pruning up to epic -1 keeps epic -2.
   */
  lemma PruneKeepsNegativeEarlierEpic()
    ensures Prune(map[EpicKey(P, "u", -2) := 5], P, "u", -1) == map[EpicKey(P, "u", -2) := 5]
  {
    NegativeEpicKeys();
    assert !Selected("t_0_u_-2", P, "u", -1);
  }

  /** The keys of epics -2 and -1, and their order under `compareTo`. */
  lemma NegativeEpicKeys()
    ensures EpicKey(P, "u", -2) == "t_0_u_-2"
    ensures EpicKey(P, "u", -1) == "t_0_u_-1"
    ensures !AtMost("t_0_u_-2", "t_0_u_-1")
  {
    assert IntToDecimal(-2) == "-2";
    assert IntToDecimal(-1) == "-1";
  }

  /**
   * The upstream id is matched as a substring: pruning upstream `u` also
   * removes an entry of upstream `u1` whose key sorts before the target.
   */
  lemma PruneMatchesUpstreamAsSubstring()
    ensures Prune(map[EpicKey(P, "u1", 5) := 7], P, "u", 3) == map[]
  {
    assert EpicKey(P, "u1", 5) == "t_0_u1_5";
    assert EpicKey(P, "u", 3) == "t_0_u_3";
    assert UpstreamPrefix(P, "u") == "t_0_u";
    assert Selected("t_0_u1_5", P, "u", 3);
  }

  /**
   * The whole `topic_partition_upstreamId` text is matched as a substring:
   * pruning topic `t` also removes an entry of topic `at`, whose key
   * `at_0_u_1` contains `t_0_u` and sorts before `t_0_u_3`.
   */
  lemma PruneReachesOtherTopic()
    ensures Prune(map[EpicKey(TopicPartition("at", 0), "u", 1) := 5], P, "u", 3) == map[]
  {
    assert EpicKey(TopicPartition("at", 0), "u", 1) == "at_0_u_1";
    assert EpicKey(P, "u", 3) == "t_0_u_3";
    assert UpstreamPrefix(P, "u") == "t_0_u";
    assert "at_0_u_1"[1..] == "t_0_u_1";
    assert Selected("at_0_u_1", P, "u", 3);
  }

  /**
   * The pruning loop as written throws when two epics of the same upstream
   * are recorded: it removes epic 1's key and then advances the iterator of
   * the head map it has just modified.
   */
  lemma ClearAsWrittenThrows()
    ensures ClearAsWritten(map[EpicKey(P, "u", 1) := 10, EpicKey(P, "u", 2) := 20], P, "u", 2)
         == Failure(ConcurrentModification)
  {
    TwoEpicsNotLast(map[EpicKey(P, "u", 1) := 10, EpicKey(P, "u", 2) := 20]);
  }

  /** Proof step of `ClearAsWrittenThrows`: epic 1's key is selected and epic 2's key follows it in the head map. */
  lemma TwoEpicsNotLast(ledger: Ledger)
    requires ledger == map[EpicKey(P, "u", 1) := 10, EpicKey(P, "u", 2) := 20]
    ensures SelectedKeyNotLast(ledger, P, "u", 2)
  {
    var k1 := EpicKey(P, "u", 1);
    var k2 := EpicKey(P, "u", 2);
    TwoEpicKeys();
    assert AtMost("t_0_u_1", "t_0_u_2") && Contains("t_0_u_1", "t_0_u");
    assert Before("t_0_u_1", "t_0_u_2");
    assert AtMost(k2, k2);
    assert k1 in ledger && k2 in ledger;
  }

  /** Proof step of `TwoEpicsNotLast`: the key strings for upstream `u`. */
  lemma TwoEpicKeys()
    ensures EpicKey(P, "u", 1) == "t_0_u_1"
    ensures EpicKey(P, "u", 2) == "t_0_u_2"
    ensures UpstreamPrefix(P, "u") == "t_0_u"
  {
  }

}
