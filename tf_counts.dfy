/** Word frequencies of a token sequence with stop words removed: the counting loops of
    preProcession and queryToTerm (adb/RelevanceFeedback.java). */
module TermCounts {

  /** Frequencies of the non-stop tokens of `tokens`, accumulated left to right. */
  function CountTf(tokens: seq<string>, stop: set<string>): map<string, int>
  {
    if tokens == [] then map[]
    else
      var m := CountTf(tokens[..|tokens| - 1], stop);
      var w := tokens[|tokens| - 1];
      if w in stop then m
      else if w in m then m[w := m[w] + 1]
      else m[w := 1]
  }

  /** Number of positions of `tokens` holding `w`. */
  function Occurrences(tokens: seq<string>, w: string): (n: nat)
    ensures n > 0 <==> w in tokens
  {
    if tokens == [] then 0
    else
      assert tokens == tokens[..|tokens| - 1] + [tokens[|tokens| - 1]];
      Occurrences(tokens[..|tokens| - 1], w) + (if tokens[|tokens| - 1] == w then 1 else 0)
  }

  /** Number of tokens of `tokens` that are not stop words. */
  function NonStopCount(tokens: seq<string>, stop: set<string>): (n: nat)
    ensures n <= |tokens|
  {
    if tokens == [] then 0
    else NonStopCount(tokens[..|tokens| - 1], stop) + (if tokens[|tokens| - 1] in stop then 0 else 1)
  }

  /** The counted words are exactly the non-stop tokens, each with its number of occurrences. */
  lemma {:induction false} CountTfCounts(tokens: seq<string>, stop: set<string>, w: string)
    ensures w in CountTf(tokens, stop) <==> w in tokens && w !in stop
    ensures w in CountTf(tokens, stop) ==> CountTf(tokens, stop)[w] == Occurrences(tokens, w) >= 1
  {
    if tokens != [] {
      var prefix := tokens[..|tokens| - 1];
      CountTfCounts(prefix, stop, w);
      assert tokens == prefix + [tokens[|tokens| - 1]];
      assert w in tokens <==> w in prefix || w == tokens[|tokens| - 1];
    }
  }

  /** Every frequency is at least 1 and no stop word is counted. */
  lemma CountTfPositive(tokens: seq<string>, stop: set<string>)
    ensures forall w :: w in CountTf(tokens, stop) ==> CountTf(tokens, stop)[w] >= 1 && w !in stop
  {
    forall w | w in CountTf(tokens, stop)
      ensures CountTf(tokens, stop)[w] >= 1 && w !in stop
    {
      CountTfCounts(tokens, stop, w);
    }
  }

  /** A key of a non-empty map, chosen once and for all. */
  ghost function Pick(m: map<string, int>): string
    requires m != map[]
  {
    var k :| k in m; k
  }

  /** Sum of the values of a map. */
  ghost function SumCounts(m: map<string, int>): int
    decreases |m|
  {
    if m == map[] then 0
    else
      var k := Pick(m);
      assert (m - {k}).Keys == m.Keys - {k};
      m[k] + SumCounts(m - {k})
  }

  /** The sum does not depend on which key is taken out first. */
  lemma {:induction false} SumCountsRemove(m: map<string, int>, k: string)
    requires k in m
    ensures SumCounts(m) == m[k] + SumCounts(m - {k})
    decreases |m|
  {
    var j := Pick(m);
    if j != k {
      assert (m - {j}).Keys == m.Keys - {j};
      assert (m - {k}).Keys == m.Keys - {k};
      SumCountsRemove(m - {j}, k);
      SumCountsRemove(m - {k}, j);
      assert m - {j} - {k} == m - {k} - {j};
    }
  }

  /** Setting the value of one key changes the sum by the difference. */
  lemma SumCountsUpdate(m: map<string, int>, k: string, v: int)
    ensures SumCounts(m[k := v]) == SumCounts(m) - (if k in m then m[k] else 0) + v
  {
    SumCountsRemove(m[k := v], k);
    assert m[k := v] - {k} == m - {k};
    if k in m {
      SumCountsRemove(m, k);
    } else {
      assert m - {k} == m;
    }
  }

  /** The frequencies add up to the number of non-stop tokens, so never to more than the token count. */
  lemma {:induction false} CountTfSum(tokens: seq<string>, stop: set<string>)
    ensures SumCounts(CountTf(tokens, stop)) == NonStopCount(tokens, stop) <= |tokens|
  {
    if tokens != [] {
      var prefix := tokens[..|tokens| - 1];
      var w := tokens[|tokens| - 1];
      var m := CountTf(prefix, stop);
      CountTfSum(prefix, stop);
      if w !in stop {
        SumCountsUpdate(m, w, if w in m then m[w] + 1 else 1);
      }
    }
  }
}
