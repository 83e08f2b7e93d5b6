/** Choosing and ordering the words of the next query (adb/RelevanceFeedback.java:43-63, 343-398). */
module Ranking {
  import Text

  /** A word of the next query with its weight (the QueryExpansion record). */
  datatype Candidate = Candidate(word: string, weight: real)

  /** QueryExpansion.compareTo: negative when `a` is heavier, so that heavier candidates sort first. */
  function CompareTo(a: Candidate, b: Candidate): int
  {
    if a.weight < b.weight then 1
    else if a.weight > b.weight then -1
    else 0
  }

  /** compareTo is a valid comparator: antisymmetric, transitive, and equal candidates compare alike. */
  lemma CompareToIsComparator(a: Candidate, b: Candidate, c: Candidate)
    ensures CompareTo(a, b) == -CompareTo(b, a)
    ensures CompareTo(a, b) <= 0 && CompareTo(b, c) <= 0 ==> CompareTo(a, c) <= 0
    ensures CompareTo(a, b) < 0 && CompareTo(b, c) < 0 ==> CompareTo(a, c) < 0
    ensures CompareTo(a, b) == 0 ==> CompareTo(a, c) == CompareTo(b, c)
    ensures CompareTo(a, b) <= 0 <==> a.weight >= b.weight
  {
  }

  /** Weights never increase along `s`: compareTo never puts a later candidate before an earlier one. */
  ghost predicate Sorted(s: seq<Candidate>)
  {
    forall i, j :: 0 <= i < j < |s| ==> s[i].weight >= s[j].weight
  }

  /** Places `c` after every candidate of `s` that does not sort after it. */
  function Insert(s: seq<Candidate>, c: Candidate): (r: seq<Candidate>)
    ensures |r| == |s| + 1
    ensures multiset(r) == multiset(s) + multiset{c}
  {
    if s == [] then [c]
    else
      var prefix, last := s[..|s| - 1], s[|s| - 1];
      assert s == prefix + [last];
      if CompareTo(last, c) <= 0 then s + [c]
      else Insert(prefix, c) + [last]
  }

  /** Collections.sort with compareTo: a stable sort by non-increasing weight. */
  function SortByWeight(cs: seq<Candidate>): (r: seq<Candidate>)
    ensures |r| == |cs|
    ensures multiset(r) == multiset(cs)
  {
    if cs == [] then []
    else
      assert cs == cs[..|cs| - 1] + [cs[|cs| - 1]];
      Insert(SortByWeight(cs[..|cs| - 1]), cs[|cs| - 1])
  }

  lemma {:induction false} InsertSorted(s: seq<Candidate>, c: Candidate)
    requires Sorted(s)
    ensures Sorted(Insert(s, c))
  {
    if s != [] {
      var prefix, last := s[..|s| - 1], s[|s| - 1];
      if CompareTo(last, c) > 0 {
        InsertSorted(prefix, c);
        var r := Insert(prefix, c);
        forall i | 0 <= i < |r|
          ensures r[i].weight >= last.weight
        {
          assert r[i] in multiset(r);
          assert r[i] in multiset(prefix) || r[i] == c;
        }
        assert Insert(s, c) == r + [last];
      }
    }
  }

  /** The sorted sequence is ordered by non-increasing weight. */
  lemma {:induction false} SortByWeightSorted(cs: seq<Candidate>)
    ensures Sorted(SortByWeight(cs))
  {
    if cs != [] {
      SortByWeightSorted(cs[..|cs| - 1]);
      InsertSorted(SortByWeight(cs[..|cs| - 1]), cs[|cs| - 1]);
    }
  }

  /** The candidates of `s` of weight `x`, in their order in `s`. */
  function WithWeight(s: seq<Candidate>, x: real): seq<Candidate>
  {
    if s == [] then []
    else WithWeight(s[..|s| - 1], x) + (if s[|s| - 1].weight == x then [s[|s| - 1]] else [])
  }

  lemma {:induction false} InsertStable(s: seq<Candidate>, c: Candidate, x: real)
    ensures WithWeight(Insert(s, c), x) == WithWeight(s, x) + (if c.weight == x then [c] else [])
  {
    if s == [] {
      assert Insert(s, c) == [c];
      assert [c][..0] == [];
    } else {
      var prefix, last := s[..|s| - 1], s[|s| - 1];
      if CompareTo(last, c) <= 0 {
        assert (s + [c])[..|s|] == s;
      } else {
        InsertStable(prefix, c, x);
        var r := Insert(prefix, c);
        assert (r + [last])[..|r|] == r;
      }
    }
  }

  /** Stability: candidates of equal weight keep the order in which they were added. */
  lemma {:induction false} SortByWeightStable(cs: seq<Candidate>, x: real)
    ensures WithWeight(SortByWeight(cs), x) == WithWeight(cs, x)
  {
    if cs != [] {
      SortByWeightStable(cs[..|cs| - 1], x);
      InsertStable(SortByWeight(cs[..|cs| - 1]), cs[|cs| - 1], x);
    }
  }

  /** The new query string: every candidate's word followed by one space, in order. */
  function Join(cs: seq<Candidate>): string
  {
    if cs == [] then ""
    else Join(cs[..|cs| - 1]) + cs[|cs| - 1].word + " "
  }

  function Words(cs: seq<Candidate>): (ws: seq<string>)
    ensures |ws| == |cs|
  {
    seq(|cs|, i requires 0 <= i < |cs| => cs[i].word)
  }

  lemma {:induction false} JoinFront(cs: seq<Candidate>)
    requires cs != []
    ensures Join(cs) == cs[0].word + " " + Join(cs[1..])
  {
    if |cs| > 1 {
      JoinFront(cs[..|cs| - 1]);
      assert cs[..|cs| - 1][1..] == cs[1..][..|cs[1..]| - 1];
    } else {
      assert cs[1..] == [];
    }
  }

  /** Splitting the query string at its spaces gives back the candidates' words, when none holds a space. */
  lemma {:induction false} JoinReadsBack(cs: seq<Candidate>)
    requires forall i :: 0 <= i < |cs| ==> ' ' !in cs[i].word
    ensures Text.SplitTerminated(Join(cs), ' ') == Words(cs)
  {
    if cs != [] {
      JoinFront(cs);
      JoinReadsBack(cs[1..]);
      Text.FieldReadBack(cs[0].word, ' ', Join(cs[1..]));
      assert cs[0].word + " " + Join(cs[1..]) == cs[0].word + [' '] + Join(cs[1..]);
      assert Words(cs) == [cs[0].word] + Words(cs[1..]);
    }
  }

  /** `fst` holds the largest component of `s`, at the lowest index attaining it; `snd`, another index,
      holds the largest of the remaining components, at the lowest index attaining that. */
  ghost predicate IsTopTwo(s: seq<real>, fst: int, snd: int)
  {
    && 0 <= fst < |s| && 0 <= snd < |s| && fst != snd
    && (forall i :: 0 <= i < |s| ==> s[i] <= s[fst])
    && (forall i :: 0 <= i < fst ==> s[i] < s[fst])
    && (forall i :: 0 <= i < |s| && i != fst ==> s[i] <= s[snd])
    && (forall i :: 0 <= i < snd && i != fst ==> s[i] < s[snd])
  }

  /** The two selected indices are determined by the vector alone. */
  lemma TopTwoUnique(s: seq<real>, fst: int, snd: int, fst': int, snd': int)
    requires IsTopTwo(s, fst, snd) && IsTopTwo(s, fst', snd')
    ensures fst == fst' && snd == snd'
  {
    assert s[fst] == s[fst'];
    assert s[snd] == s[snd'];
  }

  /** The selection of expand: indices 0 and 1 in order of their components, then each later index
      takes the top place when its component is strictly larger, or else the second place when it
      is strictly larger than that one. */
  function TopTwo(s: seq<real>): (r: (int, int))
    requires |s| >= 2
    ensures 0 <= r.0 < |s| && 0 <= r.1 < |s| && r.0 != r.1
  {
    if |s| == 2 then (if s[0] < s[1] then (1, 0) else (0, 1))
    else
      var (f, n) := TopTwo(s[..|s| - 1]);
      var i := |s| - 1;
      if s[i] > s[f] then (i, f) else if s[i] > s[n] then (f, i) else (f, n)
  }

  /** The selection finds the largest component at its lowest index and, among the others, the
      largest at its lowest index. */
  lemma {:induction false} TopTwoIsTopTwo(s: seq<real>)
    requires |s| >= 2
    ensures IsTopTwo(s, TopTwo(s).0, TopTwo(s).1)
  {
    if |s| > 2 {
      var prefix, i := s[..|s| - 1], |s| - 1;
      TopTwoIsTopTwo(prefix);
      var (f, n) := TopTwo(prefix);
      assert forall j :: 0 <= j < i ==> prefix[j] == s[j];
      if s[i] > s[f] {
        assert TopTwo(s) == (i, f);
      } else if s[i] > s[n] {
        assert TopTwo(s) == (f, i);
      } else {
        assert TopTwo(s) == (f, n);
      }
    }
  }

  // ---------------------------------------------------------------- the candidates of expand

  /** A word's penalty factor: its entry in the table, 1.0 when it has none. */
  function PenaltyOf(penalty: map<string, real>, w: string): real
  {
    if w in penalty then penalty[w] else 1.0
  }

  /** The penalty table once every query word has an entry: entries already there are kept, new ones are 1.0. */
  function WithDefaultPenalty(penalty: map<string, real>, q: seq<string>): (r: map<string, real>)
    ensures forall w :: w in r <==> w in penalty || w in q
    ensures forall w :: w in r ==> r[w] == PenaltyOf(penalty, w)
  {
    map w | w in penalty.Keys + (set u | u in q) :: PenaltyOf(penalty, w)
  }

  /** The indices of the query words. */
  function IndicesOf(q: seq<string>, termToIdx: map<string, int>): set<int>
    requires forall w :: w in q ==> w in termToIdx
  {
    set k | 0 <= k < |q| :: termToIdx[q[k]]
  }

  /** `qm` with the component of every query word set to 0, so that no query word is chosen as new. */
  function ZeroQueryWords(qm: seq<real>, q: seq<string>, termToIdx: map<string, int>): (r: seq<real>)
    requires forall w :: w in q ==> w in termToIdx
    ensures |r| == |qm|
  {
    seq(|qm|, i requires 0 <= i < |qm| => if i in IndicesOf(q, termToIdx) then 0.0 else qm[i])
  }

  /** The query words as candidates, in query order: each weighs its component of `qm` times its penalty;
      a repeated word, whose component the first occurrence already zeroed, weighs 0. */
  function QueryCandidates(q: seq<string>, qm: seq<real>, termToIdx: map<string, int>,
                           penalty: map<string, real>): (cs: seq<Candidate>)
    requires forall w :: w in q ==> w in termToIdx && 0 <= termToIdx[w] < |qm|
    ensures |cs| == |q| && Words(cs) == q
  {
    seq(|q|, k requires 0 <= k < |q| =>
      Candidate(q[k], (if q[k] in q[..k] then 0.0 else qm[termToIdx[q[k]]]) * PenaltyOf(penalty, q[k])))
  }

  /** The words chosen as new: the top one, and the second one when two are asked for. */
  function Chosen(s: seq<real>, idxToTerm: map<int, string>, fst: int, snd: int, number: int, factor: real)
    : (cs: seq<Candidate>)
    requires fst in idxToTerm && snd in idxToTerm && 0 <= fst < |s| && 0 <= snd < |s|
    ensures |cs| == if number == 2 then 2 else 1
  {
    [Candidate(idxToTerm[fst], s[fst] * factor)]
      + (if number == 2 then [Candidate(idxToTerm[snd], s[snd] * factor)] else [])
  }

  /** The penalty table once the chosen words carry the penalty factor. */
  function ChosenPenalty(penalty: map<string, real>, idxToTerm: map<int, string>, fst: int, snd: int, number: int,
                         factor: real): (r: map<string, real>)
    requires fst in idxToTerm && snd in idxToTerm
    ensures r.Keys == penalty.Keys + {idxToTerm[fst]} + (if number == 2 then {idxToTerm[snd]} else {})
    ensures r[idxToTerm[fst]] == factor
    ensures number == 2 ==> r[idxToTerm[snd]] == factor
    ensures forall w :: w in penalty && w != idxToTerm[fst] && (number == 2 ==> w != idxToTerm[snd]) ==>
              r[w] == penalty[w]
  {
    var m := penalty[idxToTerm[fst] := factor];
    if number == 2 then m[idxToTerm[snd] := factor] else m
  }

  /** The query words as indices are distinct when the index is injective. */
  ghost predicate Injective(termToIdx: map<string, int>)
  {
    forall u, v :: u in termToIdx && v in termToIdx && termToIdx[u] == termToIdx[v] ==> u == v
  }

  /** Zeroing one more query word clears its component; the component of a word is 0 exactly when the
      word is among those zeroed. */
  lemma ZeroQueryWordsSnoc(qm: seq<real>, q: seq<string>, termToIdx: map<string, int>, w: string)
    requires forall u :: u in q + [w] ==> u in termToIdx && 0 <= termToIdx[u] < |qm|
    requires Injective(termToIdx)
    ensures ZeroQueryWords(qm, q + [w], termToIdx) == ZeroQueryWords(qm, q, termToIdx)[termToIdx[w] := 0.0]
    ensures ZeroQueryWords(qm, q, termToIdx)[termToIdx[w]] == if w in q then 0.0 else qm[termToIdx[w]]
  {
    var q' := q + [w];
    assert IndicesOf(q', termToIdx) == IndicesOf(q, termToIdx) + {termToIdx[w]} by {
      forall i | i in IndicesOf(q', termToIdx) ensures i in IndicesOf(q, termToIdx) + {termToIdx[w]} {
        var k :| 0 <= k < |q'| && termToIdx[q'[k]] == i;
        if k < |q| { assert q'[k] == q[k]; }
      }
      forall i | i in IndicesOf(q, termToIdx) ensures i in IndicesOf(q', termToIdx) {
        var k :| 0 <= k < |q| && termToIdx[q[k]] == i;
        assert q'[k] == q[k];
      }
      assert q'[|q|] == w;
    }
    if w in q {
      var k :| 0 <= k < |q| && q[k] == w;
      assert termToIdx[w] in IndicesOf(q, termToIdx);
    } else {
      assert termToIdx[w] !in IndicesOf(q, termToIdx);
    }
  }

  /** One more query word adds one candidate at the end. */
  lemma QueryCandidatesSnoc(q: seq<string>, qm: seq<real>, termToIdx: map<string, int>,
                            penalty: map<string, real>, w: string)
    requires forall u :: u in q + [w] ==> u in termToIdx && 0 <= termToIdx[u] < |qm|
    ensures QueryCandidates(q + [w], qm, termToIdx, penalty)
            == QueryCandidates(q, qm, termToIdx, penalty)
               + [Candidate(w, (if w in q then 0.0 else qm[termToIdx[w]]) * PenaltyOf(penalty, w))]
  {
    var q' := q + [w];
    var l := QueryCandidates(q', qm, termToIdx, penalty);
    var r := QueryCandidates(q, qm, termToIdx, penalty)
             + [Candidate(w, (if w in q then 0.0 else qm[termToIdx[w]]) * PenaltyOf(penalty, w))];
    forall k | 0 <= k < |q'| ensures l[k] == r[k] {
      if k < |q| {
        assert q'[k] == q[k] && q'[..k] == q[..k];
      } else {
        assert q'[k] == w && q'[..k] == q;
      }
    }
  }

  /** One more query word gets the default penalty unless it already has one. */
  lemma WithDefaultPenaltySnoc(penalty: map<string, real>, q: seq<string>, w: string)
    ensures var m := WithDefaultPenalty(penalty, q);
            WithDefaultPenalty(penalty, q + [w]) == if w in m then m else m[w := 1.0]
  {
    var m := WithDefaultPenalty(penalty, q);
    var m' := if w in m then m else m[w := 1.0];
    forall u ensures u in WithDefaultPenalty(penalty, q + [w]) <==> u in m' {
      assert u in q + [w] <==> u in q || u == w;
    }
  }

  /** One word of expand's query loop: scoring `word` against the vector and table as the earlier words
      left them extends the candidates, the zeroing and the penalty table by that word. */
  lemma ScoreWordStep(s: seq<real>, q: seq<string>, termToIdx: map<string, int>, p0: map<string, real>,
                      word: string, v: seq<real>, penalty: map<string, real>, c: Candidate)
    requires forall u :: u in q ==> u in termToIdx && 0 <= termToIdx[u] < |s|
    requires word in termToIdx && 0 <= termToIdx[word] < |s|
    requires Injective(termToIdx)
    requires v == ZeroQueryWords(s, q, termToIdx) && penalty == WithDefaultPenalty(p0, q)
    requires c == Candidate(word, v[termToIdx[word]] * PenaltyOf(penalty, word))
    ensures forall u :: u in q + [word] ==> u in termToIdx && 0 <= termToIdx[u] < |s|
    ensures QueryCandidates(q + [word], s, termToIdx, p0) == QueryCandidates(q, s, termToIdx, p0) + [c]
    ensures ZeroQueryWords(s, q + [word], termToIdx) == v[termToIdx[word] := 0.0]
    ensures WithDefaultPenalty(p0, q + [word]) == if word in penalty then penalty else penalty[word := 1.0]
  {
    assert forall u :: u in q + [word] ==> u in q || u == word;
    ZeroQueryWordsSnoc(s, q, termToIdx, word);
    WithDefaultPenaltySnoc(p0, q, word);
    var cand := Candidate(word, (if word in q then 0.0 else s[termToIdx[word]]) * PenaltyOf(p0, word));
    assert PenaltyOf(penalty, word) == PenaltyOf(p0, word);
    assert c == cand;
    QueryCandidatesSnoc(q, s, termToIdx, p0, word);
  }

  /** The state of expand's query loop once the words `q` are scored: the candidates, the vector with
      their components zeroed and the penalties, from the vector `s` and the table `p0` of the start. */
  ghost predicate Scored(termToIdx: map<string, int>, v: seq<real>, penalty: map<string, real>,
                         cs: seq<Candidate>, q: seq<string>, s: seq<real>, p0: map<string, real>)
  {
    && (forall w :: w in q ==> w in termToIdx && 0 <= termToIdx[w] < |s|)
    && cs == QueryCandidates(q, s, termToIdx, p0)
    && v == ZeroQueryWords(s, q, termToIdx)
    && penalty == WithDefaultPenalty(p0, q)
  }

  /** One turn of expand's query loop keeps the loop's state: scoring `word` after `q` gives the state
      of `q + [word]`. */
  lemma ScoredStep(termToIdx: map<string, int>, v: seq<real>, penalty: map<string, real>, cs: seq<Candidate>,
                   q: seq<string>, s: seq<real>, p0: map<string, real>, word: string, c: Candidate)
    requires Scored(termToIdx, v, penalty, cs, q, s, p0)
    requires word in termToIdx && 0 <= termToIdx[word] < |s|
    requires Injective(termToIdx)
    requires c == Candidate(word, v[termToIdx[word]] * PenaltyOf(penalty, word))
    ensures Scored(termToIdx, v[termToIdx[word] := 0.0], if word in penalty then penalty else penalty[word := 1.0],
                   cs + [c], q + [word], s, p0)
  {
    ScoreWordStep(s, q, termToIdx, p0, word, v, penalty, c);
  }

  // ---------------------------------------------------------------- expand as a whole

  /** The share of relevant documents among the judged documents of a round. */
  function Precision(relevant: real, irrelevant: real): (p: real)
    requires relevant >= 0.0 && irrelevant >= 0.0 && relevant + irrelevant != 0.0
    ensures 0.0 <= p <= 1.0
    ensures p == 1.0 <==> irrelevant == 0.0
  {
    relevant / (relevant + irrelevant)
  }

  /** The penalty of the new words: the current precision scaled by its ratio to the last one. */
  function PenaltyFactor(cur: real, last: real): real
    requires last != 0.0
  {
    (cur / last) * cur
  }

  /** A round that is no more precise than the last one penalises new words at least by its precision,
      and a more precise round at most by it. */
  lemma PenaltyFactorBounds(cur: real, last: real)
    requires 0.0 <= cur && 0.0 < last
    ensures 0.0 <= PenaltyFactor(cur, last)
    ensures cur <= last ==> PenaltyFactor(cur, last) <= cur
    ensures last <= cur ==> cur <= PenaltyFactor(cur, last)
  {
    var r := cur / last;
    assert r * last == cur;
    assert 0.0 <= r;
    if cur <= last {
      assert r <= 1.0;
      assert r * cur <= 1.0 * cur;
    }
    if last <= cur {
      assert 1.0 <= r;
      assert 1.0 * cur <= r * cur;
    }
  }

  /** The candidates of expand, before sorting: the query words, then the new words picked from the
      vector with the query words' components zeroed. */
  function ExpandCandidates(q: seq<string>, qm: seq<real>, termToIdx: map<string, int>, idxToTerm: map<int, string>,
                            penalty: map<string, real>, number: int, factor: real): (cs: seq<Candidate>)
    requires |qm| >= 2
    requires forall w :: w in q ==> w in termToIdx && 0 <= termToIdx[w] < |qm|
    requires forall i :: 0 <= i < |qm| ==> i in idxToTerm
    ensures |cs| == |q| + if number == 2 then 2 else 1
  {
    var z := ZeroQueryWords(qm, q, termToIdx);
    var (f, n) := TopTwo(z);
    QueryCandidates(q, qm, termToIdx, penalty) + Chosen(z, idxToTerm, f, n, number, factor)
  }

  /** The outcome of expand: the next query and the new penalty table. */
  datatype Expansion = Expansion(next: string, penalty: map<string, real>)

  /** expand on a vector of two components or more, given the penalty factor of new words. */
  function ExpandOf(q: seq<string>, qm: seq<real>, termToIdx: map<string, int>, idxToTerm: map<int, string>,
                    penalty: map<string, real>, number: int, factor: real): (e: Expansion)
    requires |qm| >= 2
    requires forall w :: w in q ==> w in termToIdx && 0 <= termToIdx[w] < |qm|
    requires forall i :: 0 <= i < |qm| ==> i in idxToTerm
  {
    var z := ZeroQueryWords(qm, q, termToIdx);
    var (f, n) := TopTwo(z);
    Expansion(Join(SortByWeight(ExpandCandidates(q, qm, termToIdx, idxToTerm, penalty, number, factor))),
              ChosenPenalty(WithDefaultPenalty(penalty, q), idxToTerm, f, n, number, factor))
  }

  /** expand, spelled out step by step: the query words' candidates, the chosen ones and the penalties. */
  lemma ExpandOfParts(q: seq<string>, qm: seq<real>, termToIdx: map<string, int>, idxToTerm: map<int, string>,
                      penalty: map<string, real>, number: int, factor: real)
    requires |qm| >= 2
    requires forall w :: w in q ==> w in termToIdx && 0 <= termToIdx[w] < |qm|
    requires forall i :: 0 <= i < |qm| ==> i in idxToTerm
    ensures var z := ZeroQueryWords(qm, q, termToIdx);
            var (f, n) := TopTwo(z);
            var e := ExpandOf(q, qm, termToIdx, idxToTerm, penalty, number, factor);
            && e.next == Join(SortByWeight(QueryCandidates(q, qm, termToIdx, penalty)
                                           + Chosen(z, idxToTerm, f, n, number, factor)))
            && e.penalty == ChosenPenalty(WithDefaultPenalty(penalty, q), idxToTerm, f, n, number, factor)
  {
  }

  /** Sorting keeps every word that has no space without one. */
  lemma SortKeepsSpaceFree(cs: seq<Candidate>)
    requires forall k :: 0 <= k < |cs| ==> ' ' !in cs[k].word
    ensures forall i :: 0 <= i < |SortByWeight(cs)| ==> ' ' !in SortByWeight(cs)[i].word
  {
    var s := SortByWeight(cs);
    forall i | 0 <= i < |s| ensures ' ' !in s[i].word {
      assert s[i] in multiset(cs);
    }
  }

  /** The candidates of expand are the query words' followed by the chosen ones: the two components
      TopTwo picks from the zeroed vector (see TopTwoIsTopTwo), the second only when two are asked for. */
  lemma ExpandPicksTop(q: seq<string>, qm: seq<real>, termToIdx: map<string, int>, idxToTerm: map<int, string>,
                              penalty: map<string, real>, number: int, factor: real)
    requires |qm| >= 2
    requires forall w :: w in q ==> w in termToIdx && 0 <= termToIdx[w] < |qm|
    requires forall i :: 0 <= i < |qm| ==> i in idxToTerm
    ensures var cs := ExpandCandidates(q, qm, termToIdx, idxToTerm, penalty, number, factor);
            var z := ZeroQueryWords(qm, q, termToIdx);
            && cs[..|q|] == QueryCandidates(q, qm, termToIdx, penalty)
            && cs[|q|] == Candidate(idxToTerm[TopTwo(z).0], z[TopTwo(z).0] * factor)
            && (number == 2 ==> cs[|q| + 1] == Candidate(idxToTerm[TopTwo(z).1], z[TopTwo(z).1] * factor))
  {
    var z := ZeroQueryWords(qm, q, termToIdx);
    var qc := QueryCandidates(q, qm, termToIdx, penalty);
    var ch := Chosen(z, idxToTerm, TopTwo(z).0, TopTwo(z).1, number, factor);
    assert ExpandCandidates(q, qm, termToIdx, idxToTerm, penalty, number, factor) == qc + ch;
    assert |qc| == |q|;
  }

  /** Read back at its spaces, the next query lists every query word and every chosen word, once per
      candidate, heaviest first. */
  lemma ExpandReadsBack(q: seq<string>, qm: seq<real>, termToIdx: map<string, int>, idxToTerm: map<int, string>,
                        penalty: map<string, real>, number: int, factor: real)
    requires |qm| >= 2
    requires forall w :: w in q ==> w in termToIdx && 0 <= termToIdx[w] < |qm|
    requires forall i :: 0 <= i < |qm| ==> i in idxToTerm
    requires forall w :: w in q ==> ' ' !in w
    requires forall i :: 0 <= i < |qm| ==> ' ' !in idxToTerm[i]
    ensures var cs := ExpandCandidates(q, qm, termToIdx, idxToTerm, penalty, number, factor);
            var s := SortByWeight(cs);
            && Text.SplitTerminated(ExpandOf(q, qm, termToIdx, idxToTerm, penalty, number, factor).next, ' ')
               == Words(s)
            && Sorted(s) && multiset(s) == multiset(cs)
  {
    var cs := ExpandCandidates(q, qm, termToIdx, idxToTerm, penalty, number, factor);
    ExpandPicksTop(q, qm, termToIdx, idxToTerm, penalty, number, factor);
    var qc := QueryCandidates(q, qm, termToIdx, penalty);
    forall k | 0 <= k < |cs| ensures ' ' !in cs[k].word {
      if k < |q| {
        assert cs[k] == qc[k];
        assert qc[k].word == Words(qc)[k] == q[k];
      }
    }
    SortKeepsSpaceFree(cs);
    SortByWeightSorted(cs);
    JoinReadsBack(SortByWeight(cs));
  }

  /** When some word outside the query has a positive weight, the first new word is not a query word. */
  lemma ExpandAddsNewWord(q: seq<string>, qm: seq<real>, termToIdx: map<string, int>, idxToTerm: map<int, string>,
                          penalty: map<string, real>, number: int, factor: real, i: int)
    requires |qm| >= 2
    requires forall w :: w in q ==> w in termToIdx && 0 <= termToIdx[w] < |qm|
    requires forall j :: 0 <= j < |qm| ==> j in idxToTerm
    requires forall w :: w in termToIdx ==> termToIdx[w] in idxToTerm && idxToTerm[termToIdx[w]] == w
    requires forall j :: j in idxToTerm ==> idxToTerm[j] in termToIdx && termToIdx[idxToTerm[j]] == j
    requires 0 <= i < |qm| && idxToTerm[i] !in q && qm[i] > 0.0
    ensures ExpandCandidates(q, qm, termToIdx, idxToTerm, penalty, number, factor)[|q|].word !in q
  {
    var z := ZeroQueryWords(qm, q, termToIdx);
    TopTwoIsTopTwo(z);
    var f := TopTwo(z).0;
    assert i !in IndicesOf(q, termToIdx);
    assert z[f] >= z[i] > 0.0;
    assert f !in IndicesOf(q, termToIdx);
    assert forall k :: 0 <= k < |q| ==> termToIdx[q[k]] != f;
  }
}
