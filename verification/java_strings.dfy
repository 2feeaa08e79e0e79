/**
 * `String.compareTo`, which orders the keys of the ledger's `TreeMap`, and
 * `String.contains`, which the pruning loop uses to pick keys.
 */
module JavaStrings {
  import opened JavaLang

  /**
   * `String.compareTo`: the difference of the first pair of characters that
   * differ, or the difference of the lengths when one string is a prefix of
   * the other.
   */
  function CompareTo(a: string, b: string): (r: int)
    ensures r == 0 <==> a == b
  {
    if |a| == 0 || |b| == 0 then |a| - |b|
    else if a[0] != b[0] then a[0] as int - b[0] as int
    else CompareTo(a[1..], b[1..])
  }

  /** `a` sorts no later than `b` in a `TreeMap<String, _>`: `a.compareTo(b) <= 0`. */
  predicate AtMost(a: string, b: string) {
    CompareTo(a, b) <= 0
  }

  /** `a` sorts strictly before `b`. */
  predicate Before(a: string, b: string) {
    CompareTo(a, b) < 0
  }

  /** `String.contains`: `sub` occurs in `s` at some position. */
  function Contains(s: string, sub: string): (r: bool)
    ensures r ==> |sub| <= |s|
  {
    sub <= s || (0 < |s| && Contains(s[1..], sub))
  }

  /** Swapping the operands of `compareTo` negates it. */
  lemma {:induction false} CompareToAntisymmetric(a: string, b: string)
    ensures CompareTo(a, b) == -CompareTo(b, a)
  {
    if 0 < |a| && 0 < |b| && a[0] == b[0] {
      CompareToAntisymmetric(a[1..], b[1..]);
    }
  }

  /** Any two strings are ordered one way or the other. */
  lemma AtMostTotal(a: string, b: string)
    ensures AtMost(a, b) || AtMost(b, a)
  {
    CompareToAntisymmetric(a, b);
  }

  /** `compareTo` is a transitive order. */
  lemma {:induction false} AtMostTransitive(a: string, b: string, c: string)
    requires AtMost(a, b) && AtMost(b, c)
    ensures AtMost(a, c)
  {
    if 0 < |a| && 0 < |b| && 0 < |c| && a[0] == b[0] && b[0] == c[0] {
      AtMostTransitive(a[1..], b[1..], c[1..]);
    }
  }

  /** Strict order is transitive through a non-strict step. */
  lemma BeforeAtMost(a: string, b: string, c: string)
    requires Before(a, b) && AtMost(b, c)
    ensures Before(a, c)
  {
    AtMostTransitive(a, b, c);
    if a == c {
      CompareToAntisymmetric(a, b);
    }
  }

  /** A prefix sorts no later than the strings it begins. */
  lemma {:induction false} PrefixAtMost(p: string, s: string)
    requires p <= s
    ensures AtMost(p, s)
  {
    if 0 < |p| {
      PrefixAtMost(p[1..], s[1..]);
    }
  }

  /** `sub` appears in `s` starting at index `i`. */
  predicate OccursAt(s: string, sub: string, i: int) {
    0 <= i && i + |sub| <= |s| && s[i..i + |sub|] == sub
  }

  /** When `contains` holds, it names a position where `sub` appears. */
  lemma {:induction false} ContainsWitness(s: string, sub: string) returns (i: int)
    requires Contains(s, sub)
    ensures OccursAt(s, sub, i)
  {
    if sub <= s {
      i := 0;
    } else {
      var j := ContainsWitness(s[1..], sub);
      assert s[1..][j..j + |sub|] == s[j + 1..j + 1 + |sub|];
      i := j + 1;
    }
  }

  /** An appearance of `sub` anywhere in `s` makes `contains` hold. */
  lemma {:induction false} OccursContains(s: string, sub: string, i: int)
    requires OccursAt(s, sub, i)
    ensures Contains(s, sub)
    decreases i
  {
    if i > 0 {
      assert s[1..][i - 1..i - 1 + |sub|] == s[i..i + |sub|];
      OccursContains(s[1..], sub, i - 1);
    }
  }

  /** `contains` holds exactly when `sub` appears in `s` at some index. */
  lemma ContainsAt(s: string, sub: string)
    ensures Contains(s, sub) <==> exists i :: OccursAt(s, sub, i)
  {
    if Contains(s, sub) {
      var i := ContainsWitness(s, sub);
    }
    if exists i :: OccursAt(s, sub, i) {
      var i :| OccursAt(s, sub, i);
      OccursContains(s, sub, i);
    }
  }

  /** A string contains each of its prefixes. */
  lemma PrefixContained(p: string, s: string)
    requires p <= s
    ensures Contains(s, p)
  {
  }

  /** A common prefix does not change how two strings compare. */
  lemma {:induction false} CompareToCommonPrefix(p: string, a: string, b: string)
    ensures CompareTo(p + a, p + b) == CompareTo(a, b)
  {
    if 0 < |p| {
      assert (p + a)[1..] == p[1..] + a;
      assert (p + b)[1..] == p[1..] + b;
      CompareToCommonPrefix(p[1..], a, b);
      assert (p + a)[0] == (p + b)[0];
      assert 0 < |p + a| && 0 < |p + b|;
    } else {
      assert p + a == a && p + b == b;
    }
  }

  /** Of two strings of one length, the one sorting first still does after a character is appended to each. */
  lemma {:induction false} BeforeExtend(a: string, b: string, x: char, y: char)
    requires |a| == |b| && Before(a, b)
    ensures Before(a + [x], b + [y])
  {
    if a[0] == b[0] {
      assert (a + [x])[1..] == a[1..] + [x];
      assert (b + [y])[1..] == b[1..] + [y];
      BeforeExtend(a[1..], b[1..], x, y);
    }
  }

  /** Decimal texts of non-negative numbers of the same width sort like the numbers they denote. */
  lemma {:induction false} DecimalOrderSameWidth(m: nat, n: nat)
    requires m <= n && |NatToDecimal(m)| == |NatToDecimal(n)|
    ensures AtMost(NatToDecimal(m), NatToDecimal(n))
    decreases n
  {
    if 10 <= n {
      var hm, hn := NatToDecimal(m / 10), NatToDecimal(n / 10);
      assert NatToDecimal(m) == hm + [DigitChar(m % 10)];
      assert NatToDecimal(n) == hn + [DigitChar(n % 10)];
      if m / 10 == n / 10 {
        CompareToCommonPrefix(hm, [DigitChar(m % 10)], [DigitChar(n % 10)]);
      } else {
        DecimalOrderSameWidth(m / 10, n / 10);
        NatToDecimalValue(m / 10);
        NatToDecimalValue(n / 10);
        BeforeExtend(hm, hn, DigitChar(m % 10), DigitChar(n % 10));
      }
    }
  }
}
