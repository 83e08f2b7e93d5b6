/** The state preProcession accumulates across rounds (adb/RelevanceFeedback.java:133-196):
    the dense word index, URL deduplication, the stored profiles and the document frequencies. */
module Vocabulary {
  import opened Results
  import opened Terms
  import opened TermCounts
  import opened Tokenizer

  // ---------------------------------------------------------------- the word index

  /** termToIdx and idxToTerm are mutual inverses over exactly the indices 0 .. |termToIdx| - 1. */
  ghost predicate DenseIndex(termToIdx: map<string, int>, idxToTerm: map<int, string>)
  {
    && (forall w :: w in termToIdx ==>
          0 <= termToIdx[w] < |termToIdx| && termToIdx[w] in idxToTerm && idxToTerm[termToIdx[w]] == w)
    && (forall i :: i in idxToTerm ==>
          0 <= i < |termToIdx| && idxToTerm[i] in termToIdx && termToIdx[idxToTerm[i]] == i)
    && (forall i :: 0 <= i < |termToIdx| ==> i in idxToTerm)
  }

  /** Every word of `before` keeps its index in `after`. */
  ghost predicate KeepsIndices(before: map<string, int>, after: map<string, int>)
  {
    forall w :: w in before ==> w in after && after[w] == before[w]
  }

  /** Keeping indices is transitive. */
  lemma KeepsIndicesTrans(a: map<string, int>, b: map<string, int>, c: map<string, int>)
    requires KeepsIndices(a, b) && KeepsIndices(b, c)
    ensures KeepsIndices(a, c)
  {
  }

  /** Giving an unseen word the next index, |termToIdx|, keeps the index dense and grows it by one. */
  lemma AppendWord(termToIdx: map<string, int>, idxToTerm: map<int, string>, w: string)
    requires DenseIndex(termToIdx, idxToTerm) && w !in termToIdx
    ensures |termToIdx[w := |termToIdx|]| == |termToIdx| + 1
    ensures DenseIndex(termToIdx[w := |termToIdx|], idxToTerm[|termToIdx| := w])
    ensures KeepsIndices(termToIdx, termToIdx[w := |termToIdx|])
  {
    var n := |termToIdx|;
    var t2i, i2t := termToIdx[w := n], idxToTerm[n := w];
    assert |t2i| == n + 1;
    forall i | i in i2t
      ensures 0 <= i < |t2i| && i2t[i] in t2i && t2i[i2t[i]] == i
    {
      if i != n {
        assert idxToTerm[i] != w;
      }
    }
  }

  // ---------------------------------------------------------------- deduplication by URL

  /** The URLs of `docs`. */
  function Urls(docs: seq<Doc>): (r: set<string>)
    ensures forall i :: 0 <= i < |docs| ==> docs[i].url in r
  {
    if docs == [] then {}
    else
      var prefix := docs[..|docs| - 1];
      var r := Urls(prefix) + {docs[|docs| - 1].url};
      assert forall i :: 0 <= i < |prefix| ==> prefix[i] == docs[i];
      r
  }

  /** The documents preProcession keeps from `docs` when `seen` holds the URLs already in history:
      the first document of each URL not seen before, in arrival order. */
  function Fresh(seen: set<string>, docs: seq<Doc>): seq<Doc>
  {
    if docs == [] then []
    else
      var prefix := docs[..|docs| - 1];
      var d := docs[|docs| - 1];
      Fresh(seen, prefix) + (if d.url in seen + Urls(prefix) then [] else [d])
  }

  /** What is kept was not seen before and comes from `docs`. */
  lemma {:induction false} FreshIsUnseen(seen: set<string>, docs: seq<Doc>)
    ensures |Fresh(seen, docs)| <= |docs|
    ensures forall i :: 0 <= i < |Fresh(seen, docs)| ==>
              Fresh(seen, docs)[i].url !in seen && Fresh(seen, docs)[i].url in Urls(docs)
  {
    if docs != [] {
      var prefix := docs[..|docs| - 1];
      FreshIsUnseen(seen, prefix);
      assert Urls(prefix) <= Urls(docs);
    }
  }

  /** What is kept holds one document per URL. */
  lemma {:induction false} FreshIsDistinct(seen: set<string>, docs: seq<Doc>)
    ensures forall i, j :: 0 <= i < j < |Fresh(seen, docs)| ==> Fresh(seen, docs)[i].url != Fresh(seen, docs)[j].url
  {
    if docs != [] {
      var prefix := docs[..|docs| - 1];
      var d := docs[|docs| - 1];
      FreshIsDistinct(seen, prefix);
      FreshIsUnseen(seen, prefix);
    }
  }

  /** Every URL of `docs` not seen before is kept. */
  lemma {:induction false} FreshCoversUnseen(seen: set<string>, docs: seq<Doc>)
    ensures Urls(Fresh(seen, docs)) == Urls(docs) - seen
  {
    if docs != [] {
      var prefix := docs[..|docs| - 1];
      var d := docs[|docs| - 1];
      var f := Fresh(seen, prefix);
      FreshCoversUnseen(seen, prefix);
      assert Urls(docs) == Urls(prefix) + {d.url};
      if d.url !in seen + Urls(prefix) {
        assert Fresh(seen, docs) == f + [d];
        assert (f + [d])[..|f|] == f;
        assert Urls(f + [d]) == Urls(f) + {d.url};
      } else {
        assert Fresh(seen, docs) == f;
      }
    }
  }

  /** A kept document is the first one of its URL in `docs`: a later copy, whatever its flag, is dropped. */
  lemma {:induction false} FreshKeepsFirst(seen: set<string>, docs: seq<Doc>, k: nat)
    requires k < |Fresh(seen, docs)|
    ensures exists i :: 0 <= i < |docs| && docs[i] == Fresh(seen, docs)[k]
                        && forall j :: 0 <= j < i ==> docs[j].url != docs[i].url
  {
    var prefix := docs[..|docs| - 1];
    var d := docs[|docs| - 1];
    var f := Fresh(seen, prefix);
    if k < |f| {
      FreshKeepsFirst(seen, prefix, k);
      var i :| 0 <= i < |prefix| && prefix[i] == f[k] && forall j :: 0 <= j < i ==> prefix[j].url != prefix[i].url;
      assert docs[i] == Fresh(seen, docs)[k];
      assert forall j :: 0 <= j < i ==> docs[j] == prefix[j];
    } else {
      assert Fresh(seen, docs)[k] == d && d.url !in Urls(prefix);
      assert forall j :: 0 <= j < |prefix| ==> docs[j] == prefix[j];
    }
  }

  /** Documents whose URLs are all in history add nothing. */
  lemma {:induction false} FreshOfSeen(seen: set<string>, docs: seq<Doc>)
    requires Urls(docs) <= seen
    ensures Fresh(seen, docs) == []
  {
    if docs != [] {
      var prefix := docs[..|docs| - 1];
      assert Urls(prefix) <= Urls(docs);
      FreshOfSeen(seen, prefix);
    }
  }

  /** Ingesting the same documents a second time keeps none of them. */
  lemma IngestTwiceKeepsNothing(seen: set<string>, docs: seq<Doc>)
    ensures Fresh(seen + Urls(docs), docs) == []
  {
    FreshOfSeen(seen + Urls(docs), docs);
  }

  /** Number of relevant documents in `docs`. */
  function RelevantCount(docs: seq<Doc>): (n: nat)
    ensures n <= |docs|
  {
    if docs == [] then 0
    else RelevantCount(docs[..|docs| - 1]) + (if docs[|docs| - 1].isRelevant then 1 else 0)
  }

  // ---------------------------------------------------------------- stored profiles

  /** The tokens preProcession takes from a result: those of its title and summary, joined by a space. */
  function DocTokens(d: Doc): seq<string>
  {
    Tokens(d.title + " " + d.summary)
  }

  /** The Term preProcession stores for a new document. */
  function ProfileOf(d: Doc, stop: set<string>): (p: Profile)
    ensures p.isRelevant == d.isRelevant && p.length == |DocTokens(d)|
  {
    Profile(d.isRelevant, |DocTokens(d)|, CountTf(DocTokens(d), stop))
  }

  function ProfilesOf(docs: seq<Doc>, stop: set<string>): (ps: seq<Profile>)
    ensures |ps| == |docs|
    ensures forall i :: 0 <= i < |docs| ==> ps[i] == ProfileOf(docs[i], stop)
  {
    seq(|docs|, i requires 0 <= i < |docs| => ProfileOf(docs[i], stop))
  }

  /** A stored profile counts only non-stop words, each at least once, in total at most its length. */
  ghost predicate WellFormed(p: Profile, stop: set<string>)
  {
    && (forall w :: w in p.tf ==> p.tf[w] >= 1 && w !in stop)
    && SumCounts(p.tf) <= p.length
  }

  lemma ProfileOfWellFormed(d: Doc, stop: set<string>)
    ensures WellFormed(ProfileOf(d, stop), stop)
  {
    CountTfPositive(DocTokens(d), stop);
    CountTfSum(DocTokens(d), stop);
  }

  /** The state after the loop over `done` starting from history `seen0`, profiles `ps0` and judged counts
      `relevant0`, `irrelevant0`: every URL of `done` is in history, the profiles of the kept documents
      follow in order, and each kept document is counted as relevant or as non-relevant. */
  ghost predicate Absorbed(seen0: set<string>, ps0: seq<Profile>, relevant0: real, irrelevant0: real,
                           done: seq<Doc>, stop: set<string>,
                           history: set<string>, ps: seq<Profile>, relevant: real, irrelevant: real)
  {
    var kept := Fresh(seen0, done);
    && history == seen0 + Urls(done)
    && ps == ps0 + ProfilesOf(kept, stop)
    && relevant == relevant0 + RelevantCount(kept) as real
    && irrelevant == irrelevant0 + (|kept| - RelevantCount(kept)) as real
  }

  /** Before the loop nothing is absorbed. */
  lemma AbsorbedStart(seen0: set<string>, ps0: seq<Profile>, relevant0: real, irrelevant0: real, stop: set<string>)
    ensures Absorbed(seen0, ps0, relevant0, irrelevant0, [], stop, seen0, ps0, relevant0, irrelevant0)
  {
    assert ps0 + ProfilesOf([], stop) == ps0;
  }

  /** One more document, skipped when its URL is in history and stored otherwise, extends the loop's state. */
  lemma AbsorbedStep(seen0: set<string>, ps0: seq<Profile>, relevant0: real, irrelevant0: real,
                     done: seq<Doc>, d: Doc, stop: set<string>,
                     history: set<string>, ps: seq<Profile>, relevant: real, irrelevant: real,
                     history': set<string>, ps': seq<Profile>, relevant': real, irrelevant': real)
    requires Absorbed(seen0, ps0, relevant0, irrelevant0, done, stop, history, ps, relevant, irrelevant)
    requires d.url in history ==> history' == history && ps' == ps && relevant' == relevant && irrelevant' == irrelevant
    requires d.url !in history ==>
               && history' == history + {d.url} && ps' == ps + [ProfileOf(d, stop)]
               && relevant' == relevant + (if d.isRelevant then 1.0 else 0.0)
               && irrelevant' == irrelevant + (if d.isRelevant then 0.0 else 1.0)
    ensures Absorbed(seen0, ps0, relevant0, irrelevant0, done + [d], stop, history', ps', relevant', irrelevant')
  {
    FreshSnoc(seen0, done, d);
    var kept := Fresh(seen0, done);
    if d.url !in history {
      KeptSnoc(kept, d, stop);
      var n, r, r' := |kept|, RelevantCount(kept), RelevantCount(kept + [d]);
      assert r' as real == r as real + (if d.isRelevant then 1.0 else 0.0);
      assert (n + 1 - r') as real == (n - r) as real + (if d.isRelevant then 0.0 else 1.0);
      assert Fresh(seen0, done + [d]) == kept + [d];
      assert history' == seen0 + Urls(done + [d]);
      assert ps' == ps0 + ProfilesOf(kept + [d], stop);
      assert relevant' == relevant0 + r' as real;
      assert irrelevant' == irrelevant0 + (|kept + [d]| - r') as real;
    } else {
      assert kept + [] == kept;
      assert history' == seen0 + Urls(done + [d]);
    }
  }

  /** The loop's view of one more document: its URL joins the seen ones, and it is kept when new. */
  lemma FreshSnoc(seen: set<string>, done: seq<Doc>, d: Doc)
    ensures Urls(done + [d]) == Urls(done) + {d.url}
    ensures Fresh(seen, done + [d]) == Fresh(seen, done) + (if d.url in seen + Urls(done) then [] else [d])
  {
    assert (done + [d])[..|done|] == done;
  }

  /** One more kept document adds its profile and, when relevant, one to the relevant count. */
  lemma KeptSnoc(kept: seq<Doc>, d: Doc, stop: set<string>)
    ensures ProfilesOf(kept + [d], stop) == ProfilesOf(kept, stop) + [ProfileOf(d, stop)]
    ensures RelevantCount(kept + [d]) == RelevantCount(kept) + (if d.isRelevant then 1 else 0)
  {
    assert (kept + [d])[..|kept|] == kept;
  }

  // ---------------------------------------------------------------- document frequencies

  /** Number of profiles in `ps` whose frequency map holds `w`. */
  function Containing(ps: seq<Profile>, w: string): (n: nat)
    ensures n <= |ps|
  {
    if ps == [] then 0
    else Containing(ps[..|ps| - 1], w) + (if w in ps[|ps| - 1].tf then 1 else 0)
  }

  /** docFreq holds, for each word, the number of stored profiles containing it, plus one when the word
      entered the vocabulary from a query rather than from a document; it holds no other word. */
  ghost predicate DocFreqCounts(docFreq: map<string, int>, ps: seq<Profile>, seeded: set<string>)
  {
    && (forall w :: w in docFreq <==> w in seeded || Containing(ps, w) > 0)
    && (forall w :: w in docFreq ==> docFreq[w] == Containing(ps, w) + (if w in seeded then 1 else 0))
  }

  /** docFreq after counting one more document whose distinct words are `words`. */
  ghost function AddDocument(docFreq: map<string, int>, words: set<string>): map<string, int>
  {
    map w | w in docFreq.Keys + words :: (if w in docFreq then docFreq[w] else 0) + (if w in words then 1 else 0)
  }

  /** docFreq after one more document holding `w`: a known word's count goes up by one, a new word starts at 1. */
  function CountOne(docFreq: map<string, int>, w: string): (r: map<string, int>)
    ensures r.Keys == docFreq.Keys + {w}
    ensures r[w] == (if w in docFreq then docFreq[w] else 0) + 1
    ensures forall v :: v in docFreq && v != w ==> r[v] == docFreq[v]
  {
    if w in docFreq then docFreq[w := docFreq[w] + 1] else docFreq[w := 1]
  }

  /** Counting the words of a document one at a time, in any order, reaches AddDocument. */
  lemma AddDocumentStep(docFreq: map<string, int>, done: set<string>, w: string)
    requires w !in done
    ensures AddDocument(docFreq, done + {w}) == CountOne(AddDocument(docFreq, done), w)
  {
    var next := CountOne(AddDocument(docFreq, done), w);
    assert AddDocument(docFreq, done + {w}).Keys == next.Keys;
  }

  /** The state of the loop over a document's distinct words once the words `done` are counted:
      docFreq has counted them, the index is dense over docFreq's words, and no earlier index moved. */
  ghost predicate IndexedSoFar(docFreq0: map<string, int>, termToIdx0: map<string, int>, done: set<string>,
                               docFreq: map<string, int>, termToIdx: map<string, int>, idxToTerm: map<int, string>)
  {
    && docFreq == AddDocument(docFreq0, done)
    && DenseIndex(termToIdx, idxToTerm) && docFreq.Keys == termToIdx.Keys
    && KeepsIndices(termToIdx0, termToIdx)
  }

  /** Before the loop no word is counted yet. */
  lemma IndexStart(docFreq: map<string, int>, termToIdx: map<string, int>, idxToTerm: map<int, string>,
                    words: set<string>)
    requires DenseIndex(termToIdx, idxToTerm) && docFreq.Keys == termToIdx.Keys
    ensures IndexedSoFar(docFreq, termToIdx, words - words, docFreq, termToIdx, idxToTerm)
  {
    assert words - words == {};
    assert AddDocument(docFreq, {}) == docFreq;
  }

  /** One more known word: its count goes up by one and the index stays as it is. */
  lemma IndexKnownWord(docFreq0: map<string, int>, termToIdx0: map<string, int>, done: set<string>,
                       docFreq: map<string, int>, termToIdx: map<string, int>, idxToTerm: map<int, string>,
                       w: string)
    requires IndexedSoFar(docFreq0, termToIdx0, done, docFreq, termToIdx, idxToTerm) && w !in done
    requires w in docFreq
    ensures IndexedSoFar(docFreq0, termToIdx0, done + {w}, docFreq[w := docFreq[w] + 1], termToIdx, idxToTerm)
  {
    AddDocumentStep(docFreq0, done, w);
    assert CountOne(docFreq, w) == docFreq[w := docFreq[w] + 1];
    assert docFreq[w := docFreq[w] + 1].Keys == docFreq.Keys;
  }

  /** One more unknown word: it starts at 1 and takes the next free index. */
  lemma IndexNewWord(docFreq0: map<string, int>, termToIdx0: map<string, int>, done: set<string>,
                     docFreq: map<string, int>, termToIdx: map<string, int>, idxToTerm: map<int, string>,
                     w: string)
    requires IndexedSoFar(docFreq0, termToIdx0, done, docFreq, termToIdx, idxToTerm) && w !in done
    requires w !in docFreq
    ensures IndexedSoFar(docFreq0, termToIdx0, done + {w}, docFreq[w := 1],
                         termToIdx[w := |termToIdx|], idxToTerm[|termToIdx| := w])
  {
    AddDocumentStep(docFreq0, done, w);
    assert CountOne(docFreq, w) == docFreq[w := 1];
    AppendWord(termToIdx, idxToTerm, w);
    KeepsIndicesTrans(termToIdx0, termToIdx, termToIdx[w := |termToIdx|]);
  }

  /** Counting a document's distinct words keeps docFreq equal to the number of profiles containing each word. */
  lemma AddDocumentCounts(docFreq: map<string, int>, ps: seq<Profile>, seeded: set<string>, p: Profile)
    requires DocFreqCounts(docFreq, ps, seeded)
    ensures DocFreqCounts(AddDocument(docFreq, p.tf.Keys), ps + [p], seeded)
  {
    assert (ps + [p])[..|ps|] == ps;
  }

  /** What the engine keeps true between calls: the two index maps are inverse and dense, docFreq counts
      exactly the indexed words, and every stored profile is well formed. */
  ghost predicate Consistent(termToIdx: map<string, int>, idxToTerm: map<int, string>, docFreq: map<string, int>,
                             ps: seq<Profile>, seeded: set<string>, stop: set<string>)
  {
    && DenseIndex(termToIdx, idxToTerm)
    && docFreq.Keys == termToIdx.Keys
    && DocFreqCounts(docFreq, ps, seeded)
    && (forall k :: 0 <= k < |ps| ==> WellFormed(ps[k], stop))
  }

  /** A word of a stored profile is counted in at least one profile. */
  lemma {:induction false} ContainingPositive(ps: seq<Profile>, k: nat, w: string)
    requires k < |ps| && w in ps[k].tf
    ensures Containing(ps, w) > 0
  {
    if k < |ps| - 1 {
      ContainingPositive(ps[..|ps| - 1], k, w);
    }
  }

  /** In a consistent vocabulary every word of every stored profile is indexed and has a frequency. */
  lemma ProfileWordsIndexed(termToIdx: map<string, int>, idxToTerm: map<int, string>, docFreq: map<string, int>,
                            ps: seq<Profile>, seeded: set<string>, stop: set<string>)
    requires Consistent(termToIdx, idxToTerm, docFreq, ps, seeded, stop)
    ensures forall k, w :: 0 <= k < |ps| && w in ps[k].tf ==> w in docFreq && w in termToIdx
  {
    forall k, w | 0 <= k < |ps| && w in ps[k].tf
      ensures w in docFreq && w in termToIdx
    {
      ContainingPositive(ps, k, w);
    }
  }

  /** Once the query words are indexed, every word the query's frequencies count is indexed and has a frequency. */
  lemma QueryTfIndexed(q: seq<string>, stop: set<string>, termToIdx: map<string, int>, docFreq: map<string, int>)
    requires docFreq.Keys == termToIdx.Keys
    requires forall w :: w in q ==> w in termToIdx
    ensures forall w :: w in CountTf(q, stop) ==> w in docFreq && w in termToIdx
  {
    forall w | w in CountTf(q, stop)
      ensures w in docFreq && w in termToIdx
    {
      CountTfCounts(q, stop, w);
    }
  }

  /** An empty vocabulary with no profile is consistent. */
  lemma ConsistentEmpty(stop: set<string>)
    ensures Consistent(map[], map[], map[], [], {}, stop)
  {
    assert DenseIndex(map[], map[]);
  }

  /** Indexing the words of one more well-formed profile keeps the vocabulary consistent, and the
      vocabulary grows by exactly those words. */
  lemma ConsistentAdd(termToIdx0: map<string, int>, idxToTerm0: map<int, string>, docFreq0: map<string, int>,
                      ps: seq<Profile>, seeded: set<string>, stop: set<string>,
                      termToIdx: map<string, int>, idxToTerm: map<int, string>, docFreq: map<string, int>, p: Profile)
    requires Consistent(termToIdx0, idxToTerm0, docFreq0, ps, seeded, stop)
    requires IndexedSoFar(docFreq0, termToIdx0, p.tf.Keys, docFreq, termToIdx, idxToTerm)
    requires WellFormed(p, stop)
    ensures Consistent(termToIdx, idxToTerm, docFreq, ps + [p], seeded, stop)
    ensures termToIdx.Keys == termToIdx0.Keys + p.tf.Keys
  {
    AddDocumentCounts(docFreq0, ps, seeded, p);
    assert docFreq.Keys == docFreq0.Keys + p.tf.Keys;
    forall k | 0 <= k < |ps + [p]|
      ensures WellFormed((ps + [p])[k], stop)
    {
      if k < |ps| {
        assert (ps + [p])[k] == ps[k];
      }
    }
  }

  /** The distinct words among the first `j` query words. */
  function WordsUpTo(q: seq<string>, j: nat): (r: set<string>)
    requires j <= |q|
    ensures forall i :: 0 <= i < j ==> q[i] in r
  {
    set i | 0 <= i < j :: q[i]
  }

  /** One more query word adds itself to the words seen, whether or not it was indexed already
      (`idx` is the index a new word receives). */
  lemma WordsUpToSnoc(q: seq<string>, j: nat, termToIdx0: map<string, int>, termToIdx: map<string, int>, idx: int)
    requires j < |q|
    requires termToIdx.Keys == termToIdx0.Keys + WordsUpTo(q, j)
    ensures q[j] in termToIdx ==> termToIdx.Keys == termToIdx0.Keys + WordsUpTo(q, j + 1)
    ensures termToIdx[q[j] := idx].Keys == termToIdx0.Keys + WordsUpTo(q, j + 1)
  {
    WordsUpToStep(q, j);
    KeysAdd(termToIdx, q[j], idx);
  }

  lemma KeysAdd(m: map<string, int>, w: string, idx: int)
    ensures m[w := idx].Keys == m.Keys + {w}
    ensures w in m ==> m.Keys + {w} == m.Keys
  {
  }

  /** One more query word adds itself to the seeded words exactly when the vocabulary did not hold it. */
  lemma SeededSnoc(q: seq<string>, j: nat, keys0: set<string>, keys: set<string>, seeded0: set<string>, sd: set<string>)
    requires j < |q| && keys == keys0 + WordsUpTo(q, j) && sd == seeded0 + (WordsUpTo(q, j) - keys0)
    ensures q[j] in keys ==> sd == seeded0 + (WordsUpTo(q, j + 1) - keys0)
    ensures q[j] !in keys ==> sd + {q[j]} == seeded0 + (WordsUpTo(q, j + 1) - keys0)
  {
    WordsUpToStep(q, j);
  }

  lemma WordsUpToStep(q: seq<string>, j: nat)
    requires j < |q|
    ensures WordsUpTo(q, j + 1) == WordsUpTo(q, j) + {q[j]}
  {
    forall w | w in WordsUpTo(q, j + 1)
      ensures w in WordsUpTo(q, j) + {q[j]}
    {
      var i :| 0 <= i < j + 1 && q[i] == w;
    }
  }

  /** A query word unknown to the vocabulary takes the next index with document frequency 1, and the
      vocabulary stays consistent with the word counted as seeded. */
  lemma ConsistentSeed(termToIdx: map<string, int>, idxToTerm: map<int, string>, docFreq: map<string, int>,
                       ps: seq<Profile>, seeded: set<string>, stop: set<string>, w: string)
    requires Consistent(termToIdx, idxToTerm, docFreq, ps, seeded, stop)
    requires w !in termToIdx
    ensures Consistent(termToIdx[w := |termToIdx|], idxToTerm[|termToIdx| := w], docFreq[w := 1], ps, seeded + {w}, stop)
    ensures KeepsIndices(termToIdx, termToIdx[w := |termToIdx|])
  {
    AppendWord(termToIdx, idxToTerm, w);
  }

  /** Every counted word has a positive frequency. */
  lemma DocFreqPositive(docFreq: map<string, int>, ps: seq<Profile>, seeded: set<string>)
    requires DocFreqCounts(docFreq, ps, seeded)
    ensures forall w :: w in docFreq ==> docFreq[w] >= 1
  {
  }

  // ---------------------------------------------------------------- the query words

  /** The three tables of the vocabulary. */
  datatype Tables = Tables(termToIdx: map<string, int>, idxToTerm: map<int, string>, docFreq: map<string, int>)

  /** One turn of preProcession's loop over the query words: a word not yet indexed takes the next index
      with document frequency 1; an indexed word changes nothing. */
  function SeedOne(t: Tables, w: string): Tables
  {
    if w in t.termToIdx then t
    else Tables(t.termToIdx[w := |t.termToIdx|], t.idxToTerm[|t.termToIdx| := w], t.docFreq[w := 1])
  }

  /** preProcession's loop over the first j query words, in query order. */
  function SeedUpTo(t: Tables, q: seq<string>, j: nat): Tables
    requires j <= |q|
  {
    if j == 0 then t else SeedOne(SeedUpTo(t, q, j - 1), q[j - 1])
  }

  /** After the loop over the first j query words every one of them is indexed. */
  lemma {:induction false} SeedUpToHolds(t: Tables, q: seq<string>, j: nat)
    requires j <= |q|
    ensures forall i :: 0 <= i < j ==> q[i] in SeedUpTo(t, q, j).termToIdx
  {
    if j > 0 {
      SeedUpToHolds(t, q, j - 1);
    }
  }

  /** The query loop indexes no word besides those it held and the query words it has passed. */
  lemma {:induction false} SeedUpToOnly(t: Tables, q: seq<string>, j: nat)
    requires j <= |q|
    ensures forall w :: w in SeedUpTo(t, q, j).termToIdx ==> w in t.termToIdx || w in q[..j]
  {
    if j > 0 {
      SeedUpToOnly(t, q, j - 1);
      assert q[..j] == q[..j - 1] + [q[j - 1]];
    }
  }

  /** The query loop moves no word already indexed. */
  lemma {:induction false} SeedUpToKeeps(t: Tables, q: seq<string>, j: nat)
    requires j <= |q|
    ensures KeepsIndices(t.termToIdx, SeedUpTo(t, q, j).termToIdx)
  {
    if j > 0 {
      SeedUpToKeeps(t, q, j - 1);
    }
  }

  /** The query loop keeps a frequency for exactly the indexed words, gives each new word frequency 1 and
      changes no other frequency. */
  lemma {:induction false} SeedUpToFreq(t: Tables, q: seq<string>, j: nat)
    requires j <= |q| && forall u :: u in t.docFreq <==> u in t.termToIdx
    ensures forall u :: u in SeedUpTo(t, q, j).docFreq <==> u in SeedUpTo(t, q, j).termToIdx
    ensures forall u :: u in SeedUpTo(t, q, j).docFreq ==>
              SeedUpTo(t, q, j).docFreq[u] == if u in t.docFreq then t.docFreq[u] else 1
  {
    if j > 0 {
      SeedUpToFreq(t, q, j - 1);
      SeedUpToKeeps(t, q, j - 1);
      var r, w := SeedUpTo(t, q, j - 1), q[j - 1];
      assert w !in r.termToIdx ==> w !in t.docFreq;
    }
  }

  /** The query loop keeps the index dense. */
  lemma {:induction false} SeedUpToDense(t: Tables, q: seq<string>, j: nat)
    requires j <= |q| && DenseIndex(t.termToIdx, t.idxToTerm)
    ensures DenseIndex(SeedUpTo(t, q, j).termToIdx, SeedUpTo(t, q, j).idxToTerm)
  {
    if j > 0 {
      SeedUpToDense(t, q, j - 1);
      var r := SeedUpTo(t, q, j - 1);
      assert SeedUpTo(t, q, j) == SeedOne(r, q[j - 1]);
      if q[j - 1] !in r.termToIdx {
        AppendWord(r.termToIdx, r.idxToTerm, q[j - 1]);
      }
    }
  }

  /** New query words take their indices in query order: a word met for the first time, and not indexed
      before the loop, gets an index above that of every query word before it. */
  lemma SeedUpToOrder(t: Tables, q: seq<string>, j: nat, i: nat, k: nat)
    requires j <= |q| && DenseIndex(t.termToIdx, t.idxToTerm)
    requires i < k < j && q[k] !in t.termToIdx && q[k] !in q[..k]
    ensures q[i] in SeedUpTo(t, q, j).termToIdx && q[k] in SeedUpTo(t, q, j).termToIdx
    ensures SeedUpTo(t, q, j).termToIdx[q[i]] < SeedUpTo(t, q, j).termToIdx[q[k]]
  {
    SeedUpToNewest(t, q, i, k);
    SeedUpToLift(t, q, j, i, k);
  }

  /** Two words the loop has indexed by turn k + 1 keep their order to the end of the loop. */
  lemma SeedUpToLift(t: Tables, q: seq<string>, j: nat, i: nat, k: nat)
    requires i < k < j <= |q|
    requires q[i] in SeedUpTo(t, q, k + 1).termToIdx && q[k] in SeedUpTo(t, q, k + 1).termToIdx
    requires SeedUpTo(t, q, k + 1).termToIdx[q[i]] < SeedUpTo(t, q, k + 1).termToIdx[q[k]]
    ensures q[i] in SeedUpTo(t, q, j).termToIdx && q[k] in SeedUpTo(t, q, j).termToIdx
    ensures SeedUpTo(t, q, j).termToIdx[q[i]] < SeedUpTo(t, q, j).termToIdx[q[k]]
  {
    SeedUpToKeepsFrom(t, q, k + 1, j);
    var before, after := SeedUpTo(t, q, k + 1).termToIdx, SeedUpTo(t, q, j).termToIdx;
    assert after[q[i]] == before[q[i]] && after[q[k]] == before[q[k]];
  }

  /** The word the loop indexes at turn k lands above every query word before it. */
  lemma SeedUpToNewest(t: Tables, q: seq<string>, i: nat, k: nat)
    requires i < k < |q| && DenseIndex(t.termToIdx, t.idxToTerm)
    requires q[k] !in t.termToIdx && q[k] !in q[..k]
    ensures q[i] in SeedUpTo(t, q, k + 1).termToIdx && q[k] in SeedUpTo(t, q, k + 1).termToIdx
    ensures SeedUpTo(t, q, k + 1).termToIdx[q[i]] < SeedUpTo(t, q, k + 1).termToIdx[q[k]]
  {
    SeedUpToHolds(t, q, k);
    SeedUpToOnly(t, q, k);
    SeedUpToBounded(t, q, k, q[i]);
    SeedOneNewest(SeedUpTo(t, q, k), q[i], q[k]);
  }

  /** Later turns of the loop move no word an earlier turn indexed. */
  lemma {:induction false} SeedUpToKeepsFrom(t: Tables, q: seq<string>, a: nat, b: nat)
    requires a <= b <= |q|
    ensures KeepsIndices(SeedUpTo(t, q, a).termToIdx, SeedUpTo(t, q, b).termToIdx)
  {
    if a < b {
      SeedUpToKeepsFrom(t, q, a, b - 1);
      KeepsIndicesTrans(SeedUpTo(t, q, a).termToIdx, SeedUpTo(t, q, b - 1).termToIdx, SeedUpTo(t, q, b).termToIdx);
    }
  }

  /** One turn of the loop keeps every indexed word at its index. */
  lemma SeedOneKeeps(t: Tables, w: string, u: string)
    requires u in t.termToIdx
    ensures u in SeedOne(t, w).termToIdx && SeedOne(t, w).termToIdx[u] == t.termToIdx[u]
  {
  }

  /** A new word's index lies above that of every word indexed before it. */
  lemma SeedOneNewest(t: Tables, u: string, w: string)
    requires u in t.termToIdx && t.termToIdx[u] < |t.termToIdx| && w !in t.termToIdx
    ensures u in SeedOne(t, w).termToIdx && w in SeedOne(t, w).termToIdx
    ensures SeedOne(t, w).termToIdx[u] < SeedOne(t, w).termToIdx[w]
  {
  }

  /** Every index the query loop leaves is below the size of the index. */
  lemma SeedUpToBounded(t: Tables, q: seq<string>, j: nat, u: string)
    requires j <= |q| && DenseIndex(t.termToIdx, t.idxToTerm)
    ensures u in SeedUpTo(t, q, j).termToIdx ==> SeedUpTo(t, q, j).termToIdx[u] < |SeedUpTo(t, q, j).termToIdx|
  {
    SeedUpToDense(t, q, j);
  }

  /** After the query loop a word is seeded when it was before, or when it is a query word that no stored
      profile holds: `seeded` gains exactly the query words the vocabulary did not have. */
  lemma SeededWords(termToIdx: map<string, int>, idxToTerm: map<int, string>, docFreq: map<string, int>,
                    ps: seq<Profile>, seeded0: set<string>, stop: set<string>, q: seq<string>, seeded: set<string>)
    requires Consistent(termToIdx, idxToTerm, docFreq, ps, seeded0, stop)
    requires seeded == seeded0 + (WordsUpTo(q, |q|) - termToIdx.Keys)
    ensures forall w :: w in seeded <==> w in seeded0 || (w in q && Containing(ps, w) == 0)
  {
    forall w
      ensures w in seeded <==> w in seeded0 || (w in q && Containing(ps, w) == 0)
    {
      assert w in WordsUpTo(q, |q|) <==> w in q by {
        if w in q {
          var k :| 0 <= k < |q| && q[k] == w;
        }
      }
      assert w in termToIdx <==> w in docFreq;
    }
  }

  // ---------------------------------------------------------------- the order of new indices

  /** The position of the first profile of `ps` holding `w`, or |ps| when none does. */
  function FirstHolding(ps: seq<Profile>, w: string): (k: nat)
    ensures k <= |ps|
    ensures k < |ps| ==> w in ps[k].tf
    ensures forall i :: 0 <= i < k ==> w !in ps[i].tf
  {
    if ps == [] then 0
    else
      var k := FirstHolding(ps[..|ps| - 1], w);
      if k < |ps| - 1 || w in ps[|ps| - 1].tf then k else |ps|
  }

  /** The words some profile of `ps` holds. */
  function WordsOf(ps: seq<Profile>): (r: set<string>)
    ensures forall w :: w in r <==> FirstHolding(ps, w) < |ps|
  {
    if ps == [] then {} else WordsOf(ps[..|ps| - 1]) + ps[|ps| - 1].tf.Keys
  }

  /** The words indexed once preProcession has taken in the profiles `ps` and the query `q` on top of
      the indexed words `keys`. */
  ghost function IndexedAfter(keys: set<string>, ps: seq<Profile>, q: seq<string>): set<string>
  {
    keys + WordsOf(ps) + (set w | w in q)
  }

  /** The words indexed since `before` are in the order the profiles bring them: a word first held by an
      earlier profile has a lower index than one first held by a later profile, and a word no profile
      holds, a query word, comes after every word a profile holds. Words first held by the same profile
      are in no particular order. */
  ghost predicate IndexedInOrder(before: map<string, int>, after: map<string, int>, ps: seq<Profile>)
  {
    forall u, w ::
      u in after && w in after && u !in before && w !in before && FirstHolding(ps, u) < FirstHolding(ps, w)
      ==> after[u] < after[w]
  }

  /** `after` grew from `before` by the words the profiles `ps` hold, in the order the profiles bring
      them, and moved no word `before` held. */
  ghost predicate GrewInOrder(before: map<string, int>, after: map<string, int>, ps: seq<Profile>)
  {
    && KeepsIndices(before, after)
    && (forall w :: w in after <==> w in before || w in WordsOf(ps))
    && IndexedInOrder(before, after, ps)
  }

  /** The query words indexed since `before` that no profile holds are in query order: such a word, at
      its first position k in the query, has a higher index than every query word before k. */
  ghost predicate QueryInOrder(before: map<string, int>, after: map<string, int>, ps: seq<Profile>, q: seq<string>)
  {
    forall i, k ::
      0 <= i < k < |q| && q[i] in after && q[k] in after && q[k] !in before && q[k] !in WordsOf(ps) && q[k] !in q[..k]
      ==> after[q[i]] < after[q[k]]
  }

  /** The index preProcession leaves, from the index `before` it found, the profiles `ps` it ends with
      and the query `q`: no word moves; the words indexed are the old ones, the profiles' and the
      query's; the profiles' new words come in the order the profiles bring them, and the query's
      remaining words after them, in query order. */
  ghost predicate Preprocessed(before: map<string, int>, after: map<string, int>, ps: seq<Profile>, q: seq<string>)
  {
    && KeepsIndices(before, after)
    && (forall w :: w in after <==> w in before || w in WordsOf(ps) || w in q)
    && IndexedInOrder(before, after, ps)
    && QueryInOrder(before, after, ps, q)
  }

  /** The words of a preprocessed index are the ones IndexedAfter names. */
  lemma PreprocessedKeys(before: map<string, int>, after: map<string, int>, ps: seq<Profile>, q: seq<string>)
    requires Preprocessed(before, after, ps, q)
    ensures after.Keys == IndexedAfter(before.Keys, ps, q)
    ensures |after| == |IndexedAfter(before.Keys, ps, q)|
  {
    var keys := IndexedAfter(before.Keys, ps, q);
    forall w
      ensures w in after.Keys <==> w in keys
    {
      assert w in (set u | u in q) <==> w in q;
    }
    assert after.Keys == keys;
  }

  /** In a consistent vocabulary every word of the stored profiles is indexed. */
  lemma WordsOfIndexed(termToIdx: map<string, int>, idxToTerm: map<int, string>, docFreq: map<string, int>,
                       ps: seq<Profile>, seeded: set<string>, stop: set<string>)
    requires Consistent(termToIdx, idxToTerm, docFreq, ps, seeded, stop)
    ensures forall w :: w in WordsOf(ps) ==> w in termToIdx
  {
    ProfileWordsIndexed(termToIdx, idxToTerm, docFreq, ps, seeded, stop);
    forall w | w in WordsOf(ps)
      ensures w in termToIdx
    {
      assert w in ps[FirstHolding(ps, w)].tf;
    }
  }

  /** Before any new document the words the stored profiles bring are all indexed, and none is new. */
  lemma InOrderStart(termToIdx: map<string, int>, idxToTerm: map<int, string>, docFreq: map<string, int>,
                     ps: seq<Profile>, seeded: set<string>, stop: set<string>)
    requires Consistent(termToIdx, idxToTerm, docFreq, ps, seeded, stop)
    ensures GrewInOrder(termToIdx, termToIdx, ps)
  {
    WordsOfIndexed(termToIdx, idxToTerm, docFreq, ps, seeded, stop);
  }

  /** A word added to a dense index without moving the others lies above every index it had before. */
  lemma NewAbove(t1: map<string, int>, i2t1: map<int, string>, t2: map<string, int>, i2t2: map<int, string>, w: string)
    requires DenseIndex(t1, i2t1) && DenseIndex(t2, i2t2) && KeepsIndices(t1, t2)
    requires w in t2 && w !in t1
    ensures t2[w] >= |t1|
  {
    forall i | i in i2t1
      ensures i in i2t2 && i2t2[i] == i2t1[i]
    {
      assert t2[i2t1[i]] == i;
    }
  }

  /** One more profile leaves the first holder of every word some earlier profile holds as it was. */
  lemma FirstHoldingSnoc(ps: seq<Profile>, p: Profile, w: string)
    ensures FirstHolding(ps, w) < |ps| ==> FirstHolding(ps + [p], w) == FirstHolding(ps, w)
    ensures FirstHolding(ps, w) == |ps| && w in p.tf ==> FirstHolding(ps + [p], w) == |ps|
    ensures WordsOf(ps + [p]) == WordsOf(ps) + p.tf.Keys
  {
    assert (ps + [p])[..|ps|] == ps;
  }

  /** Indexing only words no profile of `ps` holds keeps the order of the words the profiles bring, and
      puts the added words after them. */
  lemma IndexedInOrderGrow(t0: map<string, int>, t1: map<string, int>, i2t1: map<int, string>,
                           t2: map<string, int>, i2t2: map<int, string>, ps: seq<Profile>)
    requires DenseIndex(t1, i2t1) && DenseIndex(t2, i2t2) && KeepsIndices(t1, t2)
    requires IndexedInOrder(t0, t1, ps) && forall w :: w in WordsOf(ps) ==> w in t1
    ensures IndexedInOrder(t0, t2, ps)
  {
    forall u, w | u in t2 && w in t2 && u !in t0 && w !in t0 && FirstHolding(ps, u) < FirstHolding(ps, w)
      ensures t2[u] < t2[w]
    {
      assert u in WordsOf(ps);
      if w !in t1 {
        NewAbove(t1, i2t1, t2, i2t2, w);
      }
    }
  }

  /** One more profile changes no index and keeps the order of the words the earlier profiles brought. */
  lemma IndexedInOrderSnoc(t0: map<string, int>, t1: map<string, int>, ps: seq<Profile>, p: Profile)
    requires IndexedInOrder(t0, t1, ps) && forall w :: w in t1 ==> w in t0 || w in WordsOf(ps)
    ensures IndexedInOrder(t0, t1, ps + [p])
  {
    forall u, w | u in t1 && w in t1 && u !in t0 && w !in t0 &&
                  FirstHolding(ps + [p], u) < FirstHolding(ps + [p], w)
      ensures t1[u] < t1[w]
    {
      FirstHoldingSnoc(ps, p, u);
      FirstHoldingSnoc(ps, p, w);
    }
  }

  /** One more stored document, whose new words take the next indices, keeps the words in the order
      the profiles bring them. */
  lemma IndexedInOrderStep(t0: map<string, int>, t1: map<string, int>, i2t1: map<int, string>,
                           t2: map<string, int>, i2t2: map<int, string>, ps: seq<Profile>, p: Profile)
    requires DenseIndex(t1, i2t1) && DenseIndex(t2, i2t2) && KeepsIndices(t1, t2)
    requires IndexedInOrder(t0, t1, ps) && forall w :: w in t1 <==> w in t0 || w in WordsOf(ps)
    requires t2.Keys == t1.Keys + p.tf.Keys
    ensures IndexedInOrder(t0, t2, ps + [p])
  {
    IndexedInOrderSnoc(t0, t1, ps, p);
    FirstHoldingSnoc(ps, p, "");
    forall u, w | u in t2 && w in t2 && u !in t0 && w !in t0 &&
                  FirstHolding(ps + [p], u) < FirstHolding(ps + [p], w)
      ensures t2[u] < t2[w]
    {
      FirstHoldingSnoc(ps, p, u);
      FirstHoldingSnoc(ps, p, w);
      assert w in WordsOf(ps + [p]);
      assert u in t1;
      if w !in t1 {
        NewAbove(t1, i2t1, t2, i2t2, w);
      }
    }
  }

  /** One more stored document, whose new words take the next indices, extends the growth of the vocabulary. */
  lemma GrewInOrderStep(t0: map<string, int>, t1: map<string, int>, i2t1: map<int, string>,
                        t2: map<string, int>, i2t2: map<int, string>, ps: seq<Profile>, p: Profile)
    requires DenseIndex(t1, i2t1) && DenseIndex(t2, i2t2) && KeepsIndices(t1, t2)
    requires GrewInOrder(t0, t1, ps) && t2.Keys == t1.Keys + p.tf.Keys
    ensures GrewInOrder(t0, t2, ps + [p])
  {
    KeepsIndicesTrans(t0, t1, t2);
    FirstHoldingSnoc(ps, p, "");
    IndexedInOrderStep(t0, t1, i2t1, t2, i2t2, ps, p);
  }

  /** The loop over the query words, run after the documents, indexes its new words after every word
      the profiles brought, and in query order. */
  lemma SeedInOrder(t0: map<string, int>, t: Tables, q: seq<string>, ps: seq<Profile>)
    requires DenseIndex(t.termToIdx, t.idxToTerm) && GrewInOrder(t0, t.termToIdx, ps)
    ensures Preprocessed(t0, SeedUpTo(t, q, |q|).termToIdx, ps, q)
  {
    var r := SeedUpTo(t, q, |q|);
    SeedUpToDense(t, q, |q|);
    SeedUpToKeeps(t, q, |q|);
    KeepsIndicesTrans(t0, t.termToIdx, r.termToIdx);
    SeedUpToHolds(t, q, |q|);
    SeedUpToOnly(t, q, |q|);
    assert q[..|q|] == q;
    IndexedInOrderGrow(t0, t.termToIdx, t.idxToTerm, r.termToIdx, r.idxToTerm, ps);
    forall i, k | 0 <= i < k < |q| && q[i] in r.termToIdx && q[k] in r.termToIdx && q[k] !in t0 &&
                  q[k] !in WordsOf(ps) && q[k] !in q[..k]
      ensures r.termToIdx[q[i]] < r.termToIdx[q[k]]
    {
      SeedUpToOrder(t, q, |q|, i, k);
    }
  }
}
