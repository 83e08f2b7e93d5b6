/** The vector space of the engine: TF-IDF document vectors, centroids and Rocchio's update
    (adb/RelevanceFeedback.java:225-318). Vectors are read as sequences of reals. */
module Vectors {
  import opened Terms
  import opened Vocabulary

  /** Rocchio's weights for the original query, the relevant and the non-relevant centroid. */
  const Alpha: real := 1.0
  const Beta: real := 0.75
  const Gamma: real := 0.15

  /** The TF-IDF vector of a frequency map: at the index of each counted word, the weight of its
      frequency, its document frequency and the number N of stored profiles; 0 everywhere else. */
  function TfIdf(tf: map<string, int>, idxToTerm: map<int, string>, docFreq: map<string, int>,
                 size: nat, n: real, weight: (int, int, real) -> real): (v: seq<real>)
    requires forall w :: w in tf ==> w in docFreq
    ensures |v| == size
  {
    seq(size, i => if i in idxToTerm && idxToTerm[i] in tf
                   then weight(tf[idxToTerm[i]], docFreq[idxToTerm[i]], n) else 0.0)
  }

  /** Read through the word index: the component of a counted word is its weight, that of any other word is 0. */
  lemma TfIdfAtWord(tf: map<string, int>, termToIdx: map<string, int>, idxToTerm: map<int, string>,
                    docFreq: map<string, int>, n: real, weight: (int, int, real) -> real, w: string)
    requires DenseIndex(termToIdx, idxToTerm)
    requires forall u :: u in tf ==> u in docFreq
    requires w in termToIdx
    ensures 0 <= termToIdx[w] < |termToIdx|
    ensures TfIdf(tf, idxToTerm, docFreq, |termToIdx|, n, weight)[termToIdx[w]]
            == if w in tf then weight(tf[w], docFreq[w], n) else 0.0
  {
  }

  /** TfIdf with only the words of `done` filled in, every other component still 0: docVector's array
      part-way through its loop over the counted words. */
  function PartialTfIdf(tf: map<string, int>, done: set<string>, idxToTerm: map<int, string>,
                        docFreq: map<string, int>, size: nat, n: real, weight: (int, int, real) -> real): (v: seq<real>)
    requires done <= tf.Keys
    requires forall w :: w in tf ==> w in docFreq
    ensures |v| == size
  {
    seq(size, i => if i in idxToTerm && idxToTerm[i] in done
                   then weight(tf[idxToTerm[i]], docFreq[idxToTerm[i]], n) else 0.0)
  }

  /** Filling in one more word writes its weight at its index and nothing else. */
  lemma PartialTfIdfStep(tf: map<string, int>, termToIdx: map<string, int>, idxToTerm: map<int, string>,
                         docFreq: map<string, int>, n: real, weight: (int, int, real) -> real,
                         done: set<string>, w: string)
    requires DenseIndex(termToIdx, idxToTerm)
    requires forall u :: u in tf ==> u in docFreq && u in termToIdx
    requires done <= tf.Keys && w in tf
    ensures 0 <= termToIdx[w] < |termToIdx|
    ensures PartialTfIdf(tf, done + {w}, idxToTerm, docFreq, |termToIdx|, n, weight)
            == PartialTfIdf(tf, done, idxToTerm, docFreq, |termToIdx|, n, weight)[termToIdx[w] := weight(tf[w], docFreq[w], n)]
  {
  }

  /** Once every word is filled in, the vector is the TF-IDF vector; with none, it is all zeros. */
  lemma PartialTfIdfEnds(tf: map<string, int>, idxToTerm: map<int, string>, docFreq: map<string, int>,
                         size: nat, n: real, weight: (int, int, real) -> real)
    requires forall w :: w in tf ==> w in docFreq
    ensures PartialTfIdf(tf, tf.Keys, idxToTerm, docFreq, size, n, weight) == TfIdf(tf, idxToTerm, docFreq, size, n, weight)
    ensures PartialTfIdf(tf, {}, idxToTerm, docFreq, size, n, weight) == seq(size, i => 0.0)
  {
  }

  /** Some profile of `ps` carries the flag `relevant`. */
  ghost predicate HasGroup(ps: seq<Profile>, relevant: bool)
  {
    exists k :: 0 <= k < |ps| && ps[k].isRelevant == relevant
  }

  /** The TF-IDF vectors of the profiles of `ps` flagged `relevant`, in order: one group of groupVector. */
  function VectorsOf(ps: seq<Profile>, relevant: bool, idxToTerm: map<int, string>, docFreq: map<string, int>,
                     size: nat, n: real, weight: (int, int, real) -> real): seq<seq<real>>
    requires forall k, w :: 0 <= k < |ps| && w in ps[k].tf ==> w in docFreq
  {
    if ps == [] then []
    else
      var prefix, p := ps[..|ps| - 1], ps[|ps| - 1];
      var vs := VectorsOf(prefix, relevant, idxToTerm, docFreq, size, n, weight);
      if p.isRelevant == relevant then vs + [TfIdf(p.tf, idxToTerm, docFreq, size, n, weight)] else vs
  }

  /** Every vector of a group has one component per indexed word, and a group is empty exactly when no
      profile carries its flag. */
  lemma {:induction false} VectorsOfShape(ps: seq<Profile>, relevant: bool, idxToTerm: map<int, string>,
                                          docFreq: map<string, int>, size: nat, n: real, weight: (int, int, real) -> real)
    requires forall k, w :: 0 <= k < |ps| && w in ps[k].tf ==> w in docFreq
    ensures forall k :: 0 <= k < |VectorsOf(ps, relevant, idxToTerm, docFreq, size, n, weight)| ==>
              |VectorsOf(ps, relevant, idxToTerm, docFreq, size, n, weight)[k]| == size
    ensures |VectorsOf(ps, relevant, idxToTerm, docFreq, size, n, weight)| > 0 <==> HasGroup(ps, relevant)
  {
    if ps != [] {
      var prefix, p := ps[..|ps| - 1], ps[|ps| - 1];
      VectorsOfShape(prefix, relevant, idxToTerm, docFreq, size, n, weight);
      if HasGroup(prefix, relevant) {
        var k :| 0 <= k < |prefix| && prefix[k].isRelevant == relevant;
        assert ps[k] == prefix[k];
      }
      if HasGroup(ps, relevant) && p.isRelevant != relevant {
        var k :| 0 <= k < |ps| && ps[k].isRelevant == relevant;
        assert prefix[k] == ps[k];
      }
    }
  }

  /** The contents of the arrays of `vs`, in order. */
  ghost function Rows(vs: seq<array<real>>): (rows: seq<seq<real>>)
    reads vs
    ensures |rows| == |vs|
  {
    if vs == [] then [] else Rows(vs[..|vs| - 1]) + [vs[|vs| - 1][..]]
  }

  /** Row `k` holds the contents of the `k`-th array. */
  lemma {:induction false} RowsAt(vs: seq<array<real>>, k: nat)
    requires k < |vs|
    ensures Rows(vs)[k] == vs[k][..]
  {
    if k < |vs| - 1 {
      RowsAt(vs[..|vs| - 1], k);
    }
  }

  /** One more array adds its contents at the end. */
  lemma RowsSnoc(vs: seq<array<real>>, v: array<real>)
    ensures Rows(vs + [v]) == Rows(vs) + [v[..]]
  {
    assert (vs + [v])[..|vs|] == vs;
  }

  /** `rowsR` and `rowsN` are the two groups of the first `k` profiles of `ps`: groupVector part-way. */
  ghost predicate Grouped(rowsR: seq<seq<real>>, rowsN: seq<seq<real>>, ps: seq<Profile>, k: nat,
                          idxToTerm: map<int, string>, docFreq: map<string, int>, size: nat, n: real,
                          weight: (int, int, real) -> real)
  {
    && k <= |ps|
    && (forall j, w :: 0 <= j < |ps| && w in ps[j].tf ==> w in docFreq)
    && rowsR == VectorsOf(ps[..k], true, idxToTerm, docFreq, size, n, weight)
    && rowsN == VectorsOf(ps[..k], false, idxToTerm, docFreq, size, n, weight)
  }

  /** Before any profile both groups are empty; after all of them they are the groups of `ps`. */
  lemma GroupedEnds(rowsR: seq<seq<real>>, rowsN: seq<seq<real>>, ps: seq<Profile>, idxToTerm: map<int, string>,
                    docFreq: map<string, int>, size: nat, n: real, weight: (int, int, real) -> real)
    requires forall j, w :: 0 <= j < |ps| && w in ps[j].tf ==> w in docFreq
    ensures Grouped([], [], ps, 0, idxToTerm, docFreq, size, n, weight)
    ensures Grouped(rowsR, rowsN, ps, |ps|, idxToTerm, docFreq, size, n, weight) ==>
              && rowsR == VectorsOf(ps, true, idxToTerm, docFreq, size, n, weight)
              && rowsN == VectorsOf(ps, false, idxToTerm, docFreq, size, n, weight)
  {
    assert ps[..0] == [];
    assert ps[..|ps|] == ps;
  }

  /** The vector of the next profile joins the group its flag names; the other group stays as it was. */
  lemma GroupedStep(rowsR: seq<seq<real>>, rowsN: seq<seq<real>>, ps: seq<Profile>, k: nat,
                    idxToTerm: map<int, string>, docFreq: map<string, int>, size: nat, n: real,
                    weight: (int, int, real) -> real, row: seq<real>)
    requires Grouped(rowsR, rowsN, ps, k, idxToTerm, docFreq, size, n, weight) && k < |ps|
    requires row == TfIdf(ps[k].tf, idxToTerm, docFreq, size, n, weight)
    ensures ps[k].isRelevant ==> Grouped(rowsR + [row], rowsN, ps, k + 1, idxToTerm, docFreq, size, n, weight)
    ensures !ps[k].isRelevant ==> Grouped(rowsR, rowsN + [row], ps, k + 1, idxToTerm, docFreq, size, n, weight)
  {
    assert ps[..k + 1][..k] == ps[..k];
  }

  /** The length of each row is that of its array. */
  lemma RowsLengths(vs: seq<array<real>>)
    ensures forall k :: 0 <= k < |vs| ==> |Rows(vs)[k]| == vs[k].Length
  {
    forall k | 0 <= k < |vs|
      ensures |Rows(vs)[k]| == vs[k].Length
    {
      RowsAt(vs, k);
    }
  }

  /** `s` with every component multiplied by `factor`. */
  function Scale(s: seq<real>, factor: real): (r: seq<real>)
    ensures |r| == |s|
  {
    seq(|s|, i requires 0 <= i < |s| => s[i] * factor)
  }

  /** Sum of component `i` over `rows`; a row too short to have one adds nothing. */
  function ColumnSum(rows: seq<seq<real>>, i: nat): real
  {
    if rows == [] then 0.0
    else
      var last := rows[|rows| - 1];
      ColumnSum(rows[..|rows| - 1], i) + (if i < |last| then last[i] else 0.0)
  }

  /** The element-wise mean of `rows`, over `size` components. */
  function Centroid(rows: seq<seq<real>>, size: nat): (c: seq<real>)
    requires |rows| > 0
    ensures |c| == size
  {
    seq(size, i requires 0 <= i < size => ColumnSum(rows, i) / (|rows| as real))
  }

  /** Component-wise sums of `rows` over `size` components: centroid's array before the division. */
  function Sums(rows: seq<seq<real>>, size: nat): (r: seq<real>)
    ensures |r| == size
  {
    seq(size, i requires 0 <= i < size => ColumnSum(rows, i))
  }

  /** `s` with `row` added component-wise; a row shorter than `s` adds nothing past its end. */
  function AddRow(s: seq<real>, row: seq<real>): (r: seq<real>)
    ensures |r| == |s|
  {
    seq(|s|, i requires 0 <= i < |s| => s[i] + (if i < |row| then row[i] else 0.0))
  }

  /** `s` with every component divided by `m`. */
  function Divide(s: seq<real>, m: real): (r: seq<real>)
    requires m != 0.0
    ensures |r| == |s|
  {
    seq(|s|, i requires 0 <= i < |s| => s[i] / m)
  }

  /** Summing one more row adds it to every column sum. */
  lemma SumsSnoc(rows: seq<seq<real>>, row: seq<real>, size: nat)
    ensures Sums(rows + [row], size) == AddRow(Sums(rows, size), row)
  {
    assert (rows + [row])[..|rows|] == rows;
  }

  /** The centroid is the column sums divided by the number of rows. */
  lemma CentroidOfSums(rows: seq<seq<real>>, size: nat)
    requires |rows| > 0
    ensures Centroid(rows, size) == Divide(Sums(rows, size), |rows| as real)
  {
  }

  /** The centroid of the group flagged `relevant`, which must not be empty. */
  function GroupCentroid(ps: seq<Profile>, relevant: bool, idxToTerm: map<int, string>, docFreq: map<string, int>,
                         size: nat, n: real, weight: (int, int, real) -> real): (c: seq<real>)
    requires forall k, w :: 0 <= k < |ps| && w in ps[k].tf ==> w in docFreq
    requires HasGroup(ps, relevant)
    ensures |c| == size
  {
    VectorsOfShape(ps, relevant, idxToTerm, docFreq, size, n, weight);
    Centroid(VectorsOf(ps, relevant, idxToTerm, docFreq, size, n, weight), size)
  }

  lemma {:induction false} ColumnSumBounds(rows: seq<seq<real>>, i: nat, lo: real, hi: real)
    requires forall k :: 0 <= k < |rows| ==> i < |rows[k]| && lo <= rows[k][i] <= hi
    ensures (|rows| as real) * lo <= ColumnSum(rows, i) <= (|rows| as real) * hi
  {
    if rows != [] {
      ColumnSumBounds(rows[..|rows| - 1], i, lo, hi);
      assert (|rows| as real) * lo == ((|rows| - 1) as real) * lo + lo;
      assert (|rows| as real) * hi == ((|rows| - 1) as real) * hi + hi;
    }
  }

  /** A centroid lies within the bounds of the vectors it averages. */
  lemma CentroidBounds(rows: seq<seq<real>>, size: nat, lo: real, hi: real)
    requires |rows| > 0
    requires forall k :: 0 <= k < |rows| ==> size <= |rows[k]|
    requires forall k, i :: 0 <= k < |rows| && 0 <= i < size ==> lo <= rows[k][i] <= hi
    ensures forall i :: 0 <= i < size ==> lo <= Centroid(rows, size)[i] <= hi
  {
    var m := |rows| as real;
    forall i | 0 <= i < size
      ensures lo <= Centroid(rows, size)[i] <= hi
    {
      forall k | 0 <= k < |rows|
        ensures i < |rows[k]| && lo <= rows[k][i] <= hi
      {
      }
      ColumnSumBounds(rows, i, lo, hi);
      DivBetween(ColumnSum(rows, i), m, lo, hi);
    }
  }

  /** A quotient by a positive `m` of a value between `m * lo` and `m * hi` lies between `lo` and `hi`. */
  lemma DivBetween(c: real, m: real, lo: real, hi: real)
    requires m > 0.0 && m * lo <= c <= m * hi
    ensures lo <= c / m <= hi
  {
    var d := c / m;
    assert (d - lo) * m == c - m * lo;
    assert (hi - d) * m == m * hi - c;
  }

  /** `x`, or 0 when `x` is negative. */
  function Clamp(x: real): real
  {
    if x < 0.0 then 0.0 else x
  }

  /** Rocchio's update of the query vector `q0` by the relevant centroid `cr` and the non-relevant
      centroid `cn`, negative weights discarded. */
  function RocchioUpdate(q0: seq<real>, cr: seq<real>, cn: seq<real>): (qm: seq<real>)
    requires |q0| <= |cr| && |q0| <= |cn|
    ensures |qm| == |q0|
    ensures forall i :: 0 <= i < |q0| ==> qm[i] >= 0.0
    ensures forall i :: 0 <= i < |q0| ==>
              var x := Alpha * q0[i] + (Beta * cr[i] - Gamma * cn[i]);
              (qm[i] == x || qm[i] == 0.0) && (x >= 0.0 ==> qm[i] == x) && (x < 0.0 ==> qm[i] == 0.0)
  {
    seq(|q0|, i requires 0 <= i < |q0| => Clamp(q0[i] * Alpha + (cr[i] * Beta - cn[i] * Gamma)))
  }

  /** What rocchio needs of the query's frequencies `tf` and the profiles `ps`: every word they count
      has a document frequency, and both groups have a member (their centroids divide by the count). */
  ghost predicate Optimisable(tf: map<string, int>, ps: seq<Profile>, docFreq: map<string, int>)
  {
    && (forall w :: w in tf ==> w in docFreq)
    && (forall k, w :: 0 <= k < |ps| && w in ps[k].tf ==> w in docFreq)
    && HasGroup(ps, true) && HasGroup(ps, false)
  }

  /** rocchio applied to the TF-IDF vector of the query's frequencies `tf`: the vector the engine expands. */
  function OptimisedQuery(tf: map<string, int>, ps: seq<Profile>, idxToTerm: map<int, string>,
                          docFreq: map<string, int>, size: nat, n: real, weight: (int, int, real) -> real): (qm: seq<real>)
    requires Optimisable(tf, ps, docFreq)
    ensures |qm| == size
  {
    RocchioUpdate(TfIdf(tf, idxToTerm, docFreq, size, n, weight),
                  GroupCentroid(ps, true, idxToTerm, docFreq, size, n, weight),
                  GroupCentroid(ps, false, idxToTerm, docFreq, size, n, weight))
  }

  /** The last step of rocchio: the scaled centroids' difference added to the scaled query, negative
      results replaced by 0. */
  function Shift(q: seq<real>, cr: seq<real>, cn: seq<real>): (r: seq<real>)
    requires |q| <= |cr| && |q| <= |cn|
    ensures |r| == |q|
  {
    seq(|q|, i requires 0 <= i < |q| => Clamp(q[i] + (cr[i] - cn[i])))
  }

  /** Scaling each vector by its constant and then shifting is Rocchio's update. */
  lemma RocchioUpdateSteps(q0: seq<real>, cr: seq<real>, cn: seq<real>)
    requires |q0| <= |cr| && |q0| <= |cn|
    ensures RocchioUpdate(q0, cr, cn) == Shift(Scale(q0, Alpha), Scale(cr, Beta), Scale(cn, Gamma))
  {
  }

  /** Scaling by Alpha = 1 leaves a vector as it is, and scaling twice is scaling by the product. */
  lemma ScaleLaws(s: seq<real>, a: real, b: real)
    ensures Scale(s, Alpha) == s
    ensures Scale(Scale(s, a), b) == Scale(s, a * b)
  {
    forall i | 0 <= i < |s|
      ensures Scale(Scale(s, a), b)[i] == Scale(s, a * b)[i]
    {
      assert s[i] * a * b == s[i] * (a * b);
    }
  }

  /** A word gaining weight in the relevant centroid never loses weight in the new query. */
  lemma RocchioMonotone(q0: seq<real>, cr: seq<real>, cr': seq<real>, cn: seq<real>, i: nat)
    requires |q0| <= |cr| && |q0| <= |cn| && |cr'| == |cr| && i < |q0|
    requires cr[i] <= cr'[i]
    ensures RocchioUpdate(q0, cr, cn)[i] <= RocchioUpdate(q0, cr', cn)[i]
  {
  }
}
