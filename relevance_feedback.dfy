/** The relevance-feedback engine (adb/RelevanceFeedback.java): it accumulates judged documents across
    rounds and turns the current query into the next one with Rocchio's method. */
module Feedback {
  import opened Wrappers
  import opened Results
  import opened Terms
  import opened TermCounts
  import opened Tokenizer
  import opened Vocabulary
  import opened Vectors
  import opened Ranking

  class RelevanceFeedback {
    /** The stop words, read once when the engine is made. */
    const stop: set<string>
    /** The TF-IDF weight of a word from its frequency, its document frequency and the number of profiles. */
    const weight: (int, int, real) -> real

    var query: Option<seq<string>>
    var terms: seq<Term>
    var history: set<string>
    var termToIdx: map<string, int>
    var idxToTerm: map<int, string>
    var docFreq: map<string, int>
    var dr: seq<array<real>>
    var dnr: seq<array<real>>
    /** Relevant and non-relevant documents counted in the current round. */
    var drN: real
    var dnrN: real
    var lastPrecision: real
    var markovPenalty: map<string, real>
    /** The words that entered the vocabulary from a query rather than from a document. */
    ghost var seeded: set<string>

    /** The values of the stored Terms, in arrival order. */
    ghost var profiles: seq<Profile>

    ghost predicate Valid()
      reads this`terms, this`profiles, this`termToIdx, this`idxToTerm, this`docFreq, this`seeded
      reads this`drN, this`dnrN, terms
    {
      && |terms| == |profiles|
      && (forall k :: 0 <= k < |terms| ==> terms[k].Value() == profiles[k])
      && Consistent(termToIdx, idxToTerm, docFreq, profiles, seeded, stop)
      && drN >= 0.0 && dnrN >= 0.0
    }

    /** The stored Terms hold the profiles, one for one. */
    ghost predicate Stored()
      reads this`terms, this`profiles, terms
    {
      && |terms| == |profiles|
      && (forall k :: 0 <= k < |terms| ==> terms[k].Value() == profiles[k])
    }

    constructor (stop: set<string>, weight: (int, int, real) -> real)
      ensures Valid()
      ensures this.stop == stop && this.weight == weight
      ensures query == None && terms == [] && history == {}
      ensures termToIdx == map[] && idxToTerm == map[] && docFreq == map[]
      ensures dr == [] && dnr == [] && drN == 0.0 && dnrN == 0.0
      ensures markovPenalty == map[] && lastPrecision == 1.0
    {
      this.stop := stop;
      this.weight := weight;
      query := None;
      terms := [];
      history := {};
      termToIdx := map[];
      idxToTerm := map[];
      docFreq := map[];
      dr := [];
      dnr := [];
      drN := 0.0;
      dnrN := 0.0;
      markovPenalty := map[];
      lastPrecision := 1.0;
      seeded := {};
      profiles := [];
      ConsistentEmpty(stop);
    }

    /** Empties the session's state; the precision of the last round is kept. */
    method AllClear()
      modifies this
      ensures Valid()
      ensures query == None && terms == [] && profiles == [] && history == {}
      ensures termToIdx == map[] && idxToTerm == map[] && docFreq == map[]
      ensures dr == [] && dnr == [] && drN == 0.0 && dnrN == 0.0 && markovPenalty == map[]
      ensures lastPrecision == old(lastPrecision)
    {
      query := None;
      ClearDocuments();
      ClearVocabulary();
      markovPenalty := map[];
      drN := 0.0;
      dnrN := 0.0;
      ConsistentEmpty(stop);
    }

    /** Forgets the seen URLs, the stored Terms and the grouped vectors. */
    method ClearDocuments()
      modifies this`history, this`terms, this`profiles, this`dr, this`dnr
      ensures history == {} && terms == [] && profiles == [] && dr == [] && dnr == []
    {
      history := {};
      terms := [];
      profiles := [];
      dr := [];
      dnr := [];
    }

    /** Forgets every indexed word and its document frequency. */
    method ClearVocabulary()
      modifies this`idxToTerm, this`termToIdx, this`docFreq, this`seeded
      ensures idxToTerm == map[] && termToIdx == map[] && docFreq == map[] && seeded == {}
    {
      idxToTerm := map[];
      termToIdx := map[];
      docFreq := map[];
      seeded := {};
    }

    /** The dimension of every vector: one component per indexed word. */
    function VectorSize(): (n: nat)
      reads this`termToIdx, this`idxToTerm
      requires DenseIndex(termToIdx, idxToTerm)
      ensures forall i :: i in idxToTerm <==> 0 <= i < n
      ensures forall w :: w in termToIdx ==> termToIdx[w] < n
    {
      |termToIdx|
    }

    /** The frequencies of the non-stop tokens of one document, in a new map. */
    method CountWords(content: seq<string>) returns (tf: map<string, int>)
      ensures tf == CountTf(content, stop)
    {
      tf := map[];
      for j := 0 to |content|
        invariant tf == CountTf(content[..j], stop)
      {
        var word := content[j];
        assert content[..j + 1] == content[..j] + [word];
        if word !in stop {
          if word !in tf {
            tf := tf[word := 1];
          } else {
            tf := tf[word := tf[word] + 1];
          }
        }
      }
      assert content[..|content|] == content;
    }

    /** Counts one more document for each of its distinct `words`, indexing the words not seen before;
        the words are visited in no particular order. */
    method IndexWords(words: set<string>)
      requires DenseIndex(termToIdx, idxToTerm) && docFreq.Keys == termToIdx.Keys
      modifies this`docFreq, this`termToIdx, this`idxToTerm
      ensures IndexedSoFar(old(docFreq), old(termToIdx), words, docFreq, termToIdx, idxToTerm)
    {
      var df, t2i, i2t := docFreq, termToIdx, idxToTerm;
      ghost var df0, t2i0 := df, t2i;
      var rest := words;
      IndexStart(df, t2i, i2t, words);
      while rest != {}
        invariant rest <= words
        invariant IndexedSoFar(df0, t2i0, words - rest, df, t2i, i2t)
        decreases rest
      {
        rest, df, t2i, i2t := IndexWord(words, df0, t2i0, rest, df, t2i, i2t);
      }
      assert words - rest == words;
      docFreq, termToIdx, idxToTerm := df, t2i, i2t;
    }

    /** The body of the loop over a document's words: one word not yet visited is counted; a known word's
        count goes up by one, an unknown word starts at 1 and takes the next free index. */
    static method IndexWord(ghost words: set<string>, ghost docFreq0: map<string, int>, ghost termToIdx0: map<string, int>,
                            rest: set<string>, df: map<string, int>, t2i: map<string, int>, i2t: map<int, string>)
      returns (rest': set<string>, df': map<string, int>, t2i': map<string, int>, i2t': map<int, string>)
      requires rest != {} && rest <= words
      requires IndexedSoFar(docFreq0, termToIdx0, words - rest, df, t2i, i2t)
      ensures rest' < rest
      ensures IndexedSoFar(docFreq0, termToIdx0, words - rest', df', t2i', i2t')
    {
      var word :| word in rest;
      rest' := rest - {word};
      assert words - rest' == (words - rest) + {word};
      if word in df {
        IndexKnownWord(docFreq0, termToIdx0, words - rest, df, t2i, i2t, word);
        df', t2i', i2t' := df[word := df[word] + 1], t2i, i2t;
      } else {
        IndexNewWord(docFreq0, termToIdx0, words - rest, df, t2i, i2t, word);
        var idx := |t2i|;
        df', t2i', i2t' := df[word := 1], t2i[word := idx], i2t[idx := word];
      }
    }

    /** The Term for one result: its token count, its relevance and the frequencies of its non-stop tokens. */
    method ReadResult(sr: SingleResult) returns (term: Term)
      ensures fresh(term)
      ensures term.Value() == ProfileOf(sr.Value(), stop)
    {
      var content := Tokens(sr.GetTitle() + " " + sr.GetSummary());
      term := new Term();
      term.SetLength(|content|);
      term.SetIsRelevant(sr.GetIsRelevant());
      var tf := CountWords(content);
      term.SetTf(tf);
    }

    /** One more relevant, or one more non-relevant, document in the current round. */
    method CountJudged(relevant: bool)
      requires Valid()
      modifies this`drN, this`dnrN
      ensures Valid()
      ensures drN == old(drN) + (if relevant then 1.0 else 0.0)
      ensures dnrN == old(dnrN) + (if relevant then 0.0 else 1.0)
    {
      if relevant {
        drN := drN + 1.0;
      } else {
        dnrN := dnrN + 1.0;
      }
    }

    /** Incorporates one judged result, unless its URL is already in history. */
    method Ingest(sr: SingleResult)
      requires Valid()
      modifies this`history, this`terms, this`profiles, this`termToIdx, this`idxToTerm, this`docFreq
      modifies this`drN, this`dnrN
      ensures Valid()
      ensures sr.url in old(history) ==> unchanged(this)
      ensures sr.url !in old(history) ==>
                var p := ProfileOf(old(sr.Value()), stop);
                && history == old(history) + {sr.url}
                && profiles == old(profiles) + [p]
                && drN == old(drN) + (if sr.isRelevant then 1.0 else 0.0)
                && dnrN == old(dnrN) + (if sr.isRelevant then 0.0 else 1.0)
                && termToIdx.Keys == old(termToIdx).Keys + p.tf.Keys
      ensures KeepsIndices(old(termToIdx), termToIdx)
    {
      if sr.GetUrl() in history {
        return;
      }
      ProfileOfWellFormed(sr.Value(), stop);
      var term := ReadResult(sr);
      Admit(sr.GetUrl(), term);
    }

    /** Records a new document: its URL joins history, it is counted as judged, and its Term is stored. */
    method Admit(url: string, term: Term)
      requires Valid() && term !in terms
      requires WellFormed(term.Value(), stop)
      modifies this`history, this`terms, this`profiles, this`termToIdx, this`idxToTerm, this`docFreq
      modifies this`drN, this`dnrN
      ensures Valid()
      ensures history == old(history) + {url}
      ensures profiles == old(profiles) + [term.Value()]
      ensures drN == old(drN) + (if term.isRelevant then 1.0 else 0.0)
      ensures dnrN == old(dnrN) + (if term.isRelevant then 0.0 else 1.0)
      ensures termToIdx.Keys == old(termToIdx).Keys + term.tf.Keys
      ensures KeepsIndices(old(termToIdx), termToIdx)
    {
      history := history + {url};
      CountJudged(term.GetIsRelevant());
      StoreTerm(term);
    }

    /** Counts the words of a new Term into the vocabulary and stores the Term. */
    method StoreTerm(term: Term)
      requires Valid() && term !in terms
      requires WellFormed(term.Value(), stop)
      modifies this`terms, this`profiles, this`termToIdx, this`idxToTerm, this`docFreq
      ensures Valid()
      ensures terms == old(terms) + [term]
      ensures profiles == old(profiles) + [term.Value()]
      ensures termToIdx.Keys == old(termToIdx).Keys + term.tf.Keys
      ensures KeepsIndices(old(termToIdx), termToIdx)
    {
      ghost var p := term.Value();
      IndexWords(term.GetTf().Keys);
      ConsistentAdd(old(termToIdx), old(idxToTerm), old(docFreq), profiles, seeded, stop,
                    termToIdx, idxToTerm, docFreq, p);
      AppendTerm(term, p);
    }

    /** Adds a Term to the stored ones. */
    method AppendTerm(term: Term, ghost p: Profile)
      requires |terms| == |profiles| && forall k :: 0 <= k < |terms| ==> terms[k].Value() == profiles[k]
      requires term.Value() == p
      modifies this`terms, this`profiles
      ensures terms == old(terms) + [term] && profiles == old(profiles) + [p]
      ensures forall k :: 0 <= k < |terms| ==> terms[k].Value() == profiles[k]
    {
      terms := terms + [term];
      profiles := profiles + [p];
    }

    /** The loop over the documents of one round: each one whose URL is not yet in history is stored, in
        order, and counted as relevant or as non-relevant. The words new to the vocabulary take the next
        indices in the order the documents bring them. */
    method IngestAll(documents: seq<SingleResult>)
      requires Valid()
      modifies this`history, this`terms, this`profiles, this`termToIdx, this`idxToTerm, this`docFreq
      modifies this`drN, this`dnrN
      ensures Valid()
      ensures Absorbed(old(history), old(profiles), old(drN), old(dnrN), old(Values(documents)), stop,
                       history, profiles, drN, dnrN)
      ensures GrewInOrder(old(termToIdx), termToIdx, profiles)
    {
      ghost var docs := Values(documents);
      ghost var seen0, ps0, relevant0, irrelevant0, termToIdx0 := history, profiles, drN, dnrN, termToIdx;
      AbsorbedStart(seen0, ps0, relevant0, irrelevant0, stop);
      InOrderStart(termToIdx, idxToTerm, docFreq, profiles, seeded, stop);
      for j := 0 to |documents|
        invariant Valid()
        invariant Absorbed(seen0, ps0, relevant0, irrelevant0, docs[..j], stop, history, profiles, drN, dnrN)
        invariant GrewInOrder(termToIdx0, termToIdx, profiles)
      {
        IngestStep(documents[j], docs, j, seen0, ps0, relevant0, irrelevant0, termToIdx0);
      }
      assert docs[..|documents|] == docs;
    }

    /** The body of the loop over the documents: one more document `d`, read from `sr`, is ingested. */
    method IngestStep(sr: SingleResult, ghost docs: seq<Doc>, ghost j: nat, ghost seen0: set<string>,
                      ghost ps0: seq<Profile>, ghost relevant0: real, ghost irrelevant0: real,
                      ghost termToIdx0: map<string, int>)
      requires Valid() && j < |docs| && sr.Value() == docs[j]
      requires Absorbed(seen0, ps0, relevant0, irrelevant0, docs[..j], stop, history, profiles, drN, dnrN)
      requires GrewInOrder(termToIdx0, termToIdx, profiles)
      modifies this`history, this`terms, this`profiles, this`termToIdx, this`idxToTerm, this`docFreq
      modifies this`drN, this`dnrN
      ensures Valid()
      ensures Absorbed(seen0, ps0, relevant0, irrelevant0, docs[..j + 1], stop, history, profiles, drN, dnrN)
      ensures GrewInOrder(termToIdx0, termToIdx, profiles)
    {
      ghost var done, d := docs[..j], docs[j];
      assert docs[..j + 1] == done + [d];
      ghost var history1, profiles1, drN1, dnrN1, termToIdx1, idxToTerm1 := history, profiles, drN, dnrN, termToIdx, idxToTerm;
      assert DenseIndex(termToIdx1, idxToTerm1) && GrewInOrder(termToIdx0, termToIdx1, profiles1);
      Ingest(sr);
      AbsorbedStep(seen0, ps0, relevant0, irrelevant0, done, d, stop, history1, profiles1, drN1, dnrN1,
                   history, profiles, drN, dnrN);
      if sr.url !in history1 {
        GrewInOrderStep(termToIdx0, termToIdx1, idxToTerm1, termToIdx, idxToTerm, profiles1, ProfileOf(sr.Value(), stop));
      }
    }

    /** The loop over the query words: each word not yet indexed takes the next index with document
        frequency 1, in query order, and is recorded as seeded. */
    method SeedQueryWords(q: seq<string>)
      requires Valid()
      modifies this`termToIdx, this`idxToTerm, this`docFreq, this`seeded
      ensures Valid()
      ensures Tables(termToIdx, idxToTerm, docFreq) == SeedUpTo(Tables(old(termToIdx), old(idxToTerm), old(docFreq)), q, |q|)
      ensures seeded == old(seeded) + (WordsUpTo(q, |q|) - old(termToIdx).Keys)
      ensures termToIdx.Keys == old(termToIdx).Keys + WordsUpTo(q, |q|)
      ensures KeepsIndices(old(termToIdx), termToIdx)
      ensures forall w :: w in seeded <==> w in old(seeded) || (w in q && Containing(profiles, w) == 0)
    {
      var t2i, i2t, df, sd := SeedWords(q, profiles, stop, termToIdx, idxToTerm, docFreq, seeded);
      SeededWords(termToIdx, idxToTerm, docFreq, profiles, seeded, stop, q, sd);
      SetVocabulary(t2i, i2t, df, sd);
    }

    /** The loop of SeedQueryWords over the tables it updates. */
    static method SeedWords(q: seq<string>, ghost ps: seq<Profile>, ghost stop: set<string>,
                            t2i0: map<string, int>, i2t0: map<int, string>, df0: map<string, int>, ghost seeded0: set<string>)
      returns (t2i: map<string, int>, i2t: map<int, string>, df: map<string, int>, ghost sd: set<string>)
      requires Consistent(t2i0, i2t0, df0, ps, seeded0, stop)
      ensures Consistent(t2i, i2t, df, ps, sd, stop)
      ensures Tables(t2i, i2t, df) == SeedUpTo(Tables(t2i0, i2t0, df0), q, |q|)
      ensures sd == seeded0 + (WordsUpTo(q, |q|) - t2i0.Keys)
      ensures t2i.Keys == t2i0.Keys + WordsUpTo(q, |q|)
      ensures KeepsIndices(t2i0, t2i)
    {
      t2i, i2t, df, sd := t2i0, i2t0, df0, seeded0;
      ghost var t0 := Tables(t2i0, i2t0, df0);
      assert WordsUpTo(q, 0) == {};
      for j := 0 to |q|
        invariant Consistent(t2i, i2t, df, ps, sd, stop)
        invariant t2i.Keys == t2i0.Keys + WordsUpTo(q, j)
        invariant KeepsIndices(t2i0, t2i)
        invariant Tables(t2i, i2t, df) == SeedUpTo(t0, q, j)
        invariant sd == seeded0 + (WordsUpTo(q, j) - t2i0.Keys)
      {
        t2i, i2t, df, sd := SeedWord(q, j, ps, stop, t0, seeded0, t2i, i2t, df, sd);
      }
    }

    /** Replaces the vocabulary's tables by consistent ones. */
    method SetVocabulary(t2i: map<string, int>, i2t: map<int, string>, df: map<string, int>, ghost sd: set<string>)
      requires Stored() && drN >= 0.0 && dnrN >= 0.0
      requires Consistent(t2i, i2t, df, profiles, sd, stop)
      modifies this`termToIdx, this`idxToTerm, this`docFreq, this`seeded
      ensures Valid()
      ensures termToIdx == t2i && idxToTerm == i2t && docFreq == df && seeded == sd
    {
      termToIdx, idxToTerm, docFreq, seeded := t2i, i2t, df, sd;
    }

    /** The body of the loop over the query words, for the word at position `j`: a word not yet indexed
        takes index |t2i| and frequency 1 and joins the seeded words; an indexed word changes nothing. */
    static method SeedWord(q: seq<string>, j: nat, ghost ps: seq<Profile>, ghost stop: set<string>,
                           ghost t0: Tables, ghost seeded0: set<string>,
                           t2i: map<string, int>, i2t: map<int, string>, df: map<string, int>, ghost sd: set<string>)
      returns (t2i': map<string, int>, i2t': map<int, string>, df': map<string, int>, ghost sd': set<string>)
      requires j < |q|
      requires Consistent(t2i, i2t, df, ps, sd, stop)
      requires t2i.Keys == t0.termToIdx.Keys + WordsUpTo(q, j)
      requires KeepsIndices(t0.termToIdx, t2i)
      requires Tables(t2i, i2t, df) == SeedUpTo(t0, q, j)
      requires sd == seeded0 + (WordsUpTo(q, j) - t0.termToIdx.Keys)
      ensures q[j] in t2i ==> t2i' == t2i && i2t' == i2t && df' == df && sd' == sd
      ensures q[j] !in t2i ==> t2i' == t2i[q[j] := |t2i|] && i2t' == i2t[|t2i| := q[j]] && df' == df[q[j] := 1]
      ensures q[j] !in t2i ==> sd' == sd + {q[j]}
      ensures Consistent(t2i', i2t', df', ps, sd', stop)
      ensures t2i'.Keys == t0.termToIdx.Keys + WordsUpTo(q, j + 1)
      ensures KeepsIndices(t0.termToIdx, t2i')
      ensures Tables(t2i', i2t', df') == SeedUpTo(t0, q, j + 1)
      ensures sd' == seeded0 + (WordsUpTo(q, j + 1) - t0.termToIdx.Keys)
    {
      var word := q[j];
      WordsUpToSnoc(q, j, t0.termToIdx, t2i, |t2i|);
      SeededSnoc(q, j, t0.termToIdx.Keys, t2i.Keys, seeded0, sd);
      if word !in t2i {
        ConsistentSeed(t2i, i2t, df, ps, sd, stop, word);
        KeepsIndicesTrans(t0.termToIdx, t2i, t2i[word := |t2i|]);
        var idx := |t2i|;
        t2i', i2t', df', sd' := t2i[word := idx], i2t[idx := word], df[word := 1], sd + {word};
      } else {
        t2i', i2t', df', sd' := t2i, i2t, df, sd;
      }
    }

    /** Records the query of the round. */
    method SetQuery(q: seq<string>)
      modifies this`query
      ensures query == Some(q)
      ensures history == old(history) && profiles == old(profiles) && drN == old(drN) && dnrN == old(dnrN)
      ensures termToIdx == old(termToIdx) && (old(Valid()) ==> Valid())
    {
      query := Some(q);
    }

    /** preProcession: records the query, stores the documents of the round whose URLs are new, and
        indexes the query words the documents did not bring. The new words take the next indices: those of
        the documents in the order the documents bring them, then the remaining query words in query order. */
    method PreProcession(documents: seq<SingleResult>, q: seq<string>)
      requires Valid()
      modifies this`query, this`history, this`terms, this`profiles, this`termToIdx, this`idxToTerm
      modifies this`docFreq, this`drN, this`dnrN, this`seeded
      ensures Valid()
      ensures query == Some(q)
      ensures Absorbed(old(history), old(profiles), old(drN), old(dnrN), old(Values(documents)), stop,
                       history, profiles, drN, dnrN)
      ensures forall w :: w in q ==> w in termToIdx
      ensures KeepsIndices(old(termToIdx), termToIdx)
      ensures forall w :: w in seeded <==> w in old(seeded) || (w in q && Containing(profiles, w) == 0)
      ensures Preprocessed(old(termToIdx), termToIdx, profiles, q)
    {
      IngestAll(documents);
      IndexQuery(q, old(termToIdx));
    }

    /** The end of preProcession, once the documents are in: the query words the documents did not bring
        are indexed and the query is recorded. `before` is the index preProcession started from. */
    method IndexQuery(q: seq<string>, ghost before: map<string, int>)
      requires Valid() && GrewInOrder(before, termToIdx, profiles)
      modifies this`query, this`termToIdx, this`idxToTerm, this`docFreq, this`seeded
      ensures Valid()
      ensures query == Some(q)
      ensures KeepsIndices(old(termToIdx), termToIdx)
      ensures forall w :: w in seeded <==> w in old(seeded) || (w in q && Containing(profiles, w) == 0)
      ensures Preprocessed(before, termToIdx, profiles, q)
    {
      ghost var t1 := Tables(termToIdx, idxToTerm, docFreq);
      SeedQueryWords(q);
      SeedInOrder(before, t1, q, profiles);
      SetQuery(q);
    }

    /** queryToTerm: a new Term for the current query, its length the number of query words and its
        frequencies those of the non-stop query words, counted into the map the Term holds. */
    method QueryToTerm() returns (q0: Term)
      requires query.Some?
      ensures fresh(q0)
      ensures q0.Value() == Profile(false, |query.value|, CountTf(query.value, stop))
    {
      var q := query.value;
      q0 := new Term();
      q0.SetLength(|q|);
      for j := 0 to |q|
        invariant q0.tf == CountTf(q[..j], stop)
        invariant q0.length == |q| && !q0.isRelevant
      {
        var word := q[j];
        assert q[..j + 1] == q[..j] + [word];
        if word !in stop {
          if word in q0.tf {
            q0.tf := q0.tf[word := q0.tf[word] + 1];
          } else {
            q0.tf := q0.tf[word := 1];
          }
        }
      }
      assert q[..|q|] == q;
    }

    /** docVector: the TF-IDF vector of a Term over the current vocabulary, with N the number of stored Terms;
        the Term's words are visited in no particular order. */
    method DocVector(doc: Term) returns (v: array<real>)
      requires DenseIndex(termToIdx, idxToTerm)
      requires forall w :: w in doc.tf ==> w in docFreq && w in termToIdx
      ensures fresh(v)
      ensures v[..] == TfIdf(doc.tf, idxToTerm, docFreq, |termToIdx|, |terms| as real, weight)
    {
      var n := |terms| as real;
      var tf, t2i, i2t, df := doc.GetTf(), termToIdx, idxToTerm, docFreq;
      v := new real[|t2i|](i => 0.0);
      PartialTfIdfEnds(tf, i2t, df, |t2i|, n, weight);
      var rest := tf.Keys;
      while rest != {}
        invariant rest <= tf.Keys
        invariant v[..] == PartialTfIdf(tf, tf.Keys - rest, i2t, df, |t2i|, n, weight)
        decreases rest
      {
        var word :| word in rest;
        PartialTfIdfStep(tf, t2i, i2t, df, n, weight, tf.Keys - rest, word);
        assert tf.Keys - (rest - {word}) == (tf.Keys - rest) + {word};
        v[t2i[word]] := weight(tf[word], df[word], n);
        rest := rest - {word};
      }
      assert tf.Keys - rest == tf.Keys;
    }

    /** groupVector: the TF-IDF vectors of the stored Terms, the relevant ones in dr and the others in
        dnr, each group in arrival order and held in new arrays. */
    method GroupVector()
      requires Stored() && DenseIndex(termToIdx, idxToTerm)
      requires forall k, w :: 0 <= k < |profiles| && w in profiles[k].tf ==> w in docFreq && w in termToIdx
      modifies this`dr, this`dnr
      ensures forall v :: v in dr ==> fresh(v)
      ensures forall v :: v in dnr ==> fresh(v)
      ensures Rows(dr) == VectorsOf(profiles, true, idxToTerm, docFreq, |termToIdx|, |terms| as real, weight)
      ensures Rows(dnr) == VectorsOf(profiles, false, idxToTerm, docFreq, |termToIdx|, |terms| as real, weight)
    {
      dr := [];
      dnr := [];
      ghost var size, n := |termToIdx|, |terms| as real;
      GroupedEnds([], [], profiles, idxToTerm, docFreq, size, n, weight);
      for k := 0 to |terms|
        invariant forall v :: v in dr ==> fresh(v)
        invariant forall v :: v in dnr ==> fresh(v)
        invariant Grouped(Rows(dr), Rows(dnr), profiles, k, idxToTerm, docFreq, size, n, weight)
      {
        GroupTerm(k, profiles[k]);
      }
      GroupedEnds(Rows(dr), Rows(dnr), profiles, idxToTerm, docFreq, size, n, weight);
    }

    /** Valid depends only on the stored Terms and the vocabulary. */
    twostate lemma ValidFrame()
      requires old(Valid())
      requires unchanged(this`terms, this`profiles, this`termToIdx, this`idxToTerm, this`docFreq, this`seeded)
      requires unchanged(this`drN, this`dnrN)
      requires forall k :: 0 <= k < |terms| ==> unchanged(terms[k])
      ensures Valid()
    {
      forall k | 0 <= k < |terms|
        ensures terms[k].Value() == old(terms[k].Value())
      {
      }
    }

    /** One pass of groupVector's loop: the vector of the `k`-th Term, whose value is `p`, joins its group. */
    method GroupTerm(k: int, ghost p: Profile)
      requires 0 <= k < |terms| == |profiles| && terms[k].Value() == p == profiles[k]
      requires DenseIndex(termToIdx, idxToTerm)
      requires forall w :: w in p.tf ==> w in termToIdx
      requires Grouped(Rows(dr), Rows(dnr), profiles, k, idxToTerm, docFreq, |termToIdx|, |terms| as real, weight)
      modifies this`dr, this`dnr
      ensures forall v :: v in dr ==> v in old(dr) || fresh(v)
      ensures forall v :: v in dnr ==> v in old(dnr) || fresh(v)
      ensures Grouped(Rows(dr), Rows(dnr), profiles, k + 1, idxToTerm, docFreq, |termToIdx|, |terms| as real, weight)
    {
      var term := terms[k];
      var v := DocVector(term);
      ghost var rowsR, rowsN := Rows(dr), Rows(dnr);
      GroupedStep(rowsR, rowsN, profiles, k, idxToTerm, docFreq, |termToIdx|, |terms| as real, weight, v[..]);
      AddToGroup(v, term.GetIsRelevant());
    }

    /** `v` appended to dr when `relevant` holds, to dnr otherwise. */
    method AddToGroup(v: array<real>, relevant: bool)
      modifies this`dr, this`dnr
      ensures dr == old(dr) + (if relevant then [v] else [])
      ensures dnr == old(dnr) + (if relevant then [] else [v])
      ensures Rows(dr) == old(Rows(dr)) + (if relevant then [v[..]] else [])
      ensures Rows(dnr) == old(Rows(dnr)) + (if relevant then [] else [v[..]])
    {
      if relevant {
        RowsSnoc(dr, v);
        dr := dr + [v];
      } else {
        RowsSnoc(dnr, v);
        dnr := dnr + [v];
      }
    }

    /** vectorMulConst: every component of `vector` multiplied by `factor`, in place. */
    static method VectorMulConst(vector: array<real>, factor: real)
      modifies vector
      ensures vector[..] == Scale(old(vector[..]), factor)
    {
      ghost var s := vector[..];
      for i := 0 to vector.Length
        invariant forall j :: 0 <= j < i ==> vector[j] == s[j] * factor
        invariant forall j :: i <= j < vector.Length ==> vector[j] == s[j]
      {
        vector[i] := vector[i] * factor;
      }
      assert forall j :: 0 <= j < vector.Length ==> vector[..][j] == Scale(s, factor)[j];
    }

    /** centroid: the component-wise mean of the vectors of `d`, over the vocabulary's size. */
    method Centroid(d: seq<array<real>>) returns (ret: array<real>)
      requires DenseIndex(termToIdx, idxToTerm)
      requires |d| > 0
      requires forall k :: 0 <= k < |d| ==> d[k].Length <= |termToIdx|
      ensures fresh(ret)
      ensures ret[..] == Vectors.Centroid(Rows(d), |termToIdx|)
    {
      var num := |d| as real;
      ghost var rows := Rows(d);
      ret := new real[VectorSize()](i => 0.0);
      assert ret[..] == Sums(rows[..0], ret.Length);
      for k := 0 to |d|
        invariant ret[..] == Sums(rows[..k], ret.Length)
      {
        RowsAt(d, k);
        SumsSnoc(rows[..k], rows[k], ret.Length);
        assert rows[..k + 1] == rows[..k] + [rows[k]];
        AddInto(ret, d[k]);
      }
      assert rows[..|d|] == rows;
      CentroidOfSums(rows, ret.Length);
      DivideBy(ret, num);
    }

    /** The inner loop of centroid: `v` added component-wise into `ret`. */
    static method AddInto(ret: array<real>, v: array<real>)
      requires ret != v && v.Length <= ret.Length
      modifies ret
      ensures ret[..] == AddRow(old(ret[..]), v[..])
    {
      for i := 0 to v.Length
        invariant forall j :: 0 <= j < i ==> ret[j] == old(ret[j]) + v[j]
        invariant forall j :: i <= j < ret.Length ==> ret[j] == old(ret[j])
      {
        ret[i] := ret[i] + v[i];
      }
    }

    /** The last loop of centroid: every component of `ret` divided by `num`. */
    static method DivideBy(ret: array<real>, num: real)
      requires num != 0.0
      modifies ret
      ensures ret[..] == Divide(old(ret[..]), num)
    {
      for i := 0 to ret.Length
        invariant forall j :: 0 <= j < i ==> ret[j] == old(ret[j]) / num
        invariant forall j :: i <= j < ret.Length ==> ret[j] == old(ret[j])
      {
        ret[i] := ret[i] / num;
      }
    }

    /** rocchio: the stored Terms grouped, and the query vector `q0` moved towards the centroid of the
        relevant group and away from that of the non-relevant group, in place, negative weights dropped. */
    method Rocchio(q0: array<real>) returns (qm: array<real>)
      requires Stored() && DenseIndex(termToIdx, idxToTerm)
      requires forall k, w :: 0 <= k < |profiles| && w in profiles[k].tf ==> w in docFreq && w in termToIdx
      requires HasGroup(profiles, true) && HasGroup(profiles, false)
      requires q0.Length == |termToIdx|
      modifies this`dr, this`dnr, q0
      ensures qm == q0
      ensures Rows(dr) == VectorsOf(profiles, true, idxToTerm, docFreq, |termToIdx|, |terms| as real, weight)
      ensures Rows(dnr) == VectorsOf(profiles, false, idxToTerm, docFreq, |termToIdx|, |terms| as real, weight)
      ensures qm[..] == RocchioUpdate(old(q0[..]),
                          GroupCentroid(profiles, true, idxToTerm, docFreq, |termToIdx|, |terms| as real, weight),
                          GroupCentroid(profiles, false, idxToTerm, docFreq, |termToIdx|, |terms| as real, weight))
    {
      var cr, cn := Centroids();
      assert q0 !in dr && q0 !in dnr;
      Update(q0, cr, cn);
      qm := q0;
    }

    /** The second half of rocchio: the query and the two centroids scaled by alpha, beta and gamma, then
        combined into the query. */
    static method Update(q0: array<real>, cr: array<real>, cn: array<real>)
      requires q0 != cr && q0 != cn && cr != cn
      requires q0.Length <= cr.Length && q0.Length <= cn.Length
      modifies q0, cr, cn
      ensures q0[..] == RocchioUpdate(old(q0[..]), old(cr[..]), old(cn[..]))
    {
      ghost var q, r, nr := q0[..], cr[..], cn[..];
      VectorMulConst(q0, Alpha);
      VectorMulConst(cr, Beta);
      VectorMulConst(cn, Gamma);
      Combine(q0, cr, cn);
      RocchioUpdateSteps(q, r, nr);
    }

    /** The first half of rocchio: groupVector, then the centroid of each group. */
    method Centroids() returns (cr: array<real>, cn: array<real>)
      requires Stored() && DenseIndex(termToIdx, idxToTerm)
      requires forall k, w :: 0 <= k < |profiles| && w in profiles[k].tf ==> w in docFreq && w in termToIdx
      requires HasGroup(profiles, true) && HasGroup(profiles, false)
      modifies this`dr, this`dnr
      ensures fresh(cr) && fresh(cn) && cr != cn
      ensures cr !in dr && cr !in dnr && cn !in dr && cn !in dnr
      ensures forall v :: v in dr ==> fresh(v)
      ensures forall v :: v in dnr ==> fresh(v)
      ensures Rows(dr) == VectorsOf(profiles, true, idxToTerm, docFreq, |termToIdx|, |terms| as real, weight)
      ensures Rows(dnr) == VectorsOf(profiles, false, idxToTerm, docFreq, |termToIdx|, |terms| as real, weight)
      ensures cr[..] == GroupCentroid(profiles, true, idxToTerm, docFreq, |termToIdx|, |terms| as real, weight)
      ensures cn[..] == GroupCentroid(profiles, false, idxToTerm, docFreq, |termToIdx|, |terms| as real, weight)
    {
      ghost var size, n := |termToIdx|, |terms| as real;
      GroupVector();
      VectorsOfShape(profiles, true, idxToTerm, docFreq, size, n, weight);
      VectorsOfShape(profiles, false, idxToTerm, docFreq, size, n, weight);
      RowsLengths(dr);
      RowsLengths(dnr);
      cr := Centroid(dr);
      cn := Centroid(dnr);
    }

    /** The last loop of rocchio: the difference of the scaled centroids added to the scaled query,
        negative results replaced by 0. */
    static method Combine(q0: array<real>, cr: array<real>, cn: array<real>)
      requires q0 != cr && q0 != cn && q0.Length <= cr.Length && q0.Length <= cn.Length
      modifies q0
      ensures q0[..] == Shift(old(q0[..]), cr[..], cn[..])
    {
      ghost var s := q0[..];
      for i := 0 to q0.Length
        invariant forall j :: 0 <= j < i ==> q0[j] == Clamp(s[j] + (cr[j] - cn[j]))
        invariant forall j :: i <= j < q0.Length ==> q0[j] == s[j]
      {
        q0[i] := q0[i] + (cr[i] - cn[i]);
        if q0[i] < 0.0 {
          q0[i] := 0.0;
        }
      }
      assert forall j :: 0 <= j < q0.Length ==> q0[..][j] == Shift(s, cr[..], cn[..])[j];
    }

    /** The query loop of expand: each query word, weighed by its component times its penalty (a word
        without one gets 1.0 in the table), becomes a candidate, and its component is zeroed. */
    method ScoreQueryWords(qm: array<real>) returns (cs: seq<Candidate>)
      requires query.Some?
      requires forall w :: w in query.value ==> w in termToIdx && 0 <= termToIdx[w] < qm.Length
      requires Injective(termToIdx)
      modifies qm, this`markovPenalty
      ensures cs == QueryCandidates(query.value, old(qm[..]), termToIdx, old(markovPenalty))
      ensures qm[..] == ZeroQueryWords(old(qm[..]), query.value, termToIdx)
      ensures markovPenalty == WithDefaultPenalty(old(markovPenalty), query.value)
    {
      var q := query.value;
      ghost var s, p0 := qm[..], markovPenalty;
      cs := [];
      assert ZeroQueryWords(s, q[..0], termToIdx) == s by {
        assert IndicesOf(q[..0], termToIdx) == {};
      }
      for j := 0 to |q|
        invariant Scored(termToIdx, qm[..], markovPenalty, cs, q[..j], s, p0)
      {
        cs := ScoreStep(qm, q[..j], q[j], s, p0, cs);
        assert q[..j + 1] == q[..j] + [q[j]];
      }
      assert q[..|q|] == q;
    }

    /** One turn of expand's query loop, from the words `q` scored to `q + [word]`. */
    method ScoreStep(qm: array<real>, ghost q: seq<string>, word: string, ghost s: seq<real>,
                     ghost p0: map<string, real>, cs: seq<Candidate>) returns (cs': seq<Candidate>)
      requires word in termToIdx && 0 <= termToIdx[word] < |s| == qm.Length
      requires Injective(termToIdx)
      requires Scored(termToIdx, qm[..], markovPenalty, cs, q, s, p0)
      modifies qm, this`markovPenalty
      ensures Scored(termToIdx, qm[..], markovPenalty, cs', q + [word], s, p0)
    {
      ghost var v, penalty := qm[..], markovPenalty;
      var c := ScoreWord(qm, word);
      ScoredStep(termToIdx, v, penalty, cs, q, s, p0, word, c);
      cs' := cs + [c];
    }

    /** One step of expand's query loop: `word` becomes a candidate weighed by its component times its
        penalty, gets the penalty 1.0 when it has none, and its component is zeroed. */
    method ScoreWord(qm: array<real>, word: string) returns (c: Candidate)
      requires word in termToIdx && 0 <= termToIdx[word] < qm.Length
      modifies qm, this`markovPenalty
      ensures c == Candidate(word, old(qm[..])[termToIdx[word]] * PenaltyOf(old(markovPenalty), word))
      ensures markovPenalty == if word in old(markovPenalty) then old(markovPenalty) else old(markovPenalty)[word := 1.0]
      ensures qm[..] == old(qm[..])[termToIdx[word] := 0.0]
    {
      var penalty: real;
      if word in markovPenalty {
        penalty := markovPenalty[word];
      } else {
        markovPenalty := markovPenalty[word := 1.0];
        penalty := 1.0;
      }
      var idx := termToIdx[word];
      c := Candidate(word, qm[idx] * penalty);
      qm[idx] := 0.0;
    }

    /** The selection loop of expand: the indices of the two largest components. */
    static method TopTwoIndices(qm: array<real>) returns (fst: int, snd: int)
      requires qm.Length >= 2
      ensures (fst, snd) == TopTwo(qm[..])
      ensures IsTopTwo(qm[..], fst, snd)
    {
      fst, snd := 0, 1;
      if qm[0] < qm[1] {
        fst, snd := 1, 0;
      }
      for i := 2 to qm.Length
        invariant 0 <= fst < i && 0 <= snd < i
        invariant (fst, snd) == TopTwo(qm[..i])
      {
        assert qm[..i + 1][..i] == qm[..i];
        if qm[i] > qm[fst] {
          snd := fst;
          fst := i;
        } else if qm[i] > qm[snd] {
          snd := i;
        }
      }
      assert qm[..qm.Length] == qm[..];
      TopTwoIsTopTwo(qm[..]);
    }

    /** The joining loop of expand: each word followed by a space. */
    static method Concatenate(cs: seq<Candidate>) returns (next: string)
      ensures next == Join(cs)
    {
      next := "";
      for i := 0 to |cs|
        invariant next == Join(cs[..i])
      {
        assert cs[..i + 1][..i] == cs[..i];
        next := next + cs[i].word + " ";
      }
      assert cs[..|cs|] == cs;
    }

    /** The end of expand's selection: the words at `fst` and, when two are asked for, at `snd` become
        candidates weighed by `factor`, which becomes their penalty. */
    method Choose(qm: array<real>, fst: int, snd: int, number: int, factor: real) returns (chosen: seq<Candidate>)
      requires DenseIndex(termToIdx, idxToTerm) && qm.Length == |termToIdx|
      requires 0 <= fst < qm.Length && 0 <= snd < qm.Length
      modifies this`markovPenalty
      ensures chosen == Chosen(qm[..], idxToTerm, fst, snd, number, factor)
      ensures markovPenalty == ChosenPenalty(old(markovPenalty), idxToTerm, fst, snd, number, factor)
    {
      var term := idxToTerm[fst];
      markovPenalty := markovPenalty[term := factor];
      chosen := [Candidate(term, qm[fst] * factor)];
      if number == 2 {
        term := idxToTerm[snd];
        markovPenalty := markovPenalty[term := factor];
        chosen := chosen + [Candidate(term, qm[snd] * factor)];
      }
      assert chosen[0] == Chosen(qm[..], idxToTerm, fst, snd, number, factor)[0];
      assert |chosen| == |Chosen(qm[..], idxToTerm, fst, snd, number, factor)|;
      assert number == 2 ==> chosen[1] == Chosen(qm[..], idxToTerm, fst, snd, number, factor)[1];
    }

    /** expand: the next query from the optimised vector `qm`. A vector of fewer than two components
        gives the word of index 0, when there is one, and changes nothing. Otherwise the query words and
        the one or two (`number`) heaviest other words become candidates, sorted heaviest first and
        joined; the new words get the penalty factor, and the round's counts are reset. */
    method Expand(qm: array<real>, number: int) returns (next: Option<string>)
      requires query.Some? && DenseIndex(termToIdx, idxToTerm) && qm.Length == |termToIdx|
      requires forall w :: w in query.value ==> w in termToIdx
      requires drN >= 0.0 && dnrN >= 0.0
      requires qm.Length >= 2 ==> drN + dnrN != 0.0 && lastPrecision != 0.0
      modifies qm, this`markovPenalty, this`lastPrecision, this`drN, this`dnrN
      ensures qm.Length < 2 ==>
                && next == (if 0 in idxToTerm then Some(idxToTerm[0]) else None)
                && qm[..] == old(qm[..]) && markovPenalty == old(markovPenalty)
                && lastPrecision == old(lastPrecision) && drN == old(drN) && dnrN == old(dnrN)
      ensures qm.Length >= 2 ==>
                && Expanded(next, old(qm[..]), old(markovPenalty), old(drN), old(dnrN), old(lastPrecision), number)
                && qm[..] == ZeroQueryWords(old(qm[..]), query.value, termToIdx)
    {
      if qm.Length < 2 {
        next := if 0 in idxToTerm then Some(idxToTerm[0]) else None;
        return;
      }
      var joined, cur := ExpandVector(qm, number);
      next := Some(joined);
      EndRound(cur);
    }

    /** The outcome of expand on a vector `s` of two components or more, from the penalty table, the
        round's counts and the last precision before it: the next query and the new state. */
    ghost predicate Expanded(next: Option<string>, s: seq<real>, penalty: map<string, real>,
                             relevant: real, irrelevant: real, last: real, number: int)
      reads this`query, this`termToIdx, this`idxToTerm, this`markovPenalty, this`lastPrecision
      reads this`drN, this`dnrN
    {
      && query.Some? && |s| >= 2
      && (forall w :: w in query.value ==> w in termToIdx && 0 <= termToIdx[w] < |s|)
      && (forall i :: 0 <= i < |s| ==> i in idxToTerm)
      && relevant >= 0.0 && irrelevant >= 0.0 && relevant + irrelevant != 0.0 && last != 0.0
      && next == Some(ExpandOf(query.value, s, termToIdx, idxToTerm, penalty, number,
                               PenaltyFactor(Precision(relevant, irrelevant), last)).next)
      && markovPenalty == ExpandOf(query.value, s, termToIdx, idxToTerm, penalty, number,
                                   PenaltyFactor(Precision(relevant, irrelevant), last)).penalty
      && lastPrecision == Precision(relevant, irrelevant) && drN == 0.0 && dnrN == 0.0
    }

    /** The end of expand: the precision of this round becomes the last one, and the counts restart. */
    method EndRound(cur: real)
      modifies this`lastPrecision, this`drN, this`dnrN
      ensures lastPrecision == cur && drN == 0.0 && dnrN == 0.0
      ensures markovPenalty == old(markovPenalty)
    {
      lastPrecision := cur;
      drN := 0.0;
      dnrN := 0.0;
    }

    /** The body of expand for a vector of two components or more, up to the reset of the round. */
    method ExpandVector(qm: array<real>, number: int) returns (joined: string, cur: real)
      requires query.Some? && DenseIndex(termToIdx, idxToTerm) && qm.Length == |termToIdx| && qm.Length >= 2
      requires forall w :: w in query.value ==> w in termToIdx
      requires drN >= 0.0 && dnrN >= 0.0 && drN + dnrN != 0.0 && lastPrecision != 0.0
      modifies qm, this`markovPenalty
      ensures cur == Precision(old(drN), old(dnrN))
      ensures Some(joined) == Some(ExpandOf(query.value, old(qm[..]), termToIdx, idxToTerm, old(markovPenalty),
                                            number, PenaltyFactor(Precision(old(drN), old(dnrN)), old(lastPrecision))).next)
      ensures markovPenalty == ExpandOf(query.value, old(qm[..]), termToIdx, idxToTerm, old(markovPenalty), number,
                                        PenaltyFactor(Precision(old(drN), old(dnrN)), old(lastPrecision))).penalty
      ensures qm[..] == ZeroQueryWords(old(qm[..]), query.value, termToIdx)
    {
      ghost var s, p0, q := qm[..], markovPenalty, query.value;
      assert Injective(termToIdx);
      var cs := ScoreQueryWords(qm);
      cur := Precision(drN, dnrN);
      var factor := PenaltyFactor(cur, lastPrecision);
      var fst, snd := TopTwoIndices(qm);
      var chosen := Choose(qm, fst, snd, number, factor);
      joined := Concatenate(SortByWeight(cs + chosen));
      ExpandOfParts(q, s, termToIdx, idxToTerm, p0, number, factor);
      ghost var e := ExpandOf(q, s, termToIdx, idxToTerm, p0, number, factor);
      assert joined == e.next && markovPenalty == e.penalty;
    }

    /** queryExpansion: the round's documents and query taken in, the query's TF-IDF vector moved by
        rocchio, and the next query expanded from it with `number` new words. `relevant` and
        `irrelevant` are the round's counts once the documents are in, which expand's precision uses. */
    method QueryExpansion(number: int, documents: seq<SingleResult>, q: seq<string>)
      returns (next: Option<string>, ghost relevant: real, ghost irrelevant: real)
      requires Valid()
      requires var kept := Fresh(history, Values(documents));
               var ps := profiles + ProfilesOf(kept, stop);
               && HasGroup(ps, true) && HasGroup(ps, false)
               && (|IndexedAfter(termToIdx.Keys, ps, q)| >= 2 ==>
                     drN + dnrN + |kept| as real != 0.0 && lastPrecision != 0.0)
      modifies this`query, this`history, this`terms, this`profiles, this`termToIdx, this`idxToTerm
      modifies this`docFreq, this`drN, this`dnrN, this`seeded, this`dr, this`dnr
      modifies this`markovPenalty, this`lastPrecision
      ensures Valid()
      ensures query == Some(q)
      ensures Absorbed(old(history), old(profiles), old(drN), old(dnrN), old(Values(documents)), stop,
                       history, profiles, relevant, irrelevant)
      ensures KeepsIndices(old(termToIdx), termToIdx)
      ensures forall w :: w in seeded <==> w in old(seeded) || (w in q && Containing(profiles, w) == 0)
      ensures Preprocessed(old(termToIdx), termToIdx, profiles, q)
      ensures Optimisable(CountTf(query.value, stop), profiles, docFreq)
      ensures |termToIdx| < 2 ==>
                && next == (if 0 in idxToTerm then Some(idxToTerm[0]) else None)
                && drN == relevant && dnrN == irrelevant
                && markovPenalty == old(markovPenalty) && lastPrecision == old(lastPrecision)
      ensures |termToIdx| >= 2 ==>
                Expanded(next, OptimisedQuery(CountTf(query.value, stop), profiles, idxToTerm, docFreq, |termToIdx|,
                                              |terms| as real, weight),
                         old(markovPenalty), relevant, irrelevant, old(lastPrecision), number)
    {
      ghost var kept, ps0 := Fresh(history, Values(documents)), profiles;
      relevant, irrelevant := Prepare(documents, q, markovPenalty, lastPrecision);
      PreprocessedKeys(old(termToIdx), termToIdx, profiles, q);
      assert profiles == ps0 + ProfilesOf(kept, stop);
      next := ExpandOptimised(number, q, old(history), old(profiles), old(drN), old(dnrN), old(Values(documents)),
                              old(markovPenalty), relevant, irrelevant, old(lastPrecision));
    }

    /** The first half of queryExpansion: preProcession, after which every word the query and the
        profiles count is indexed and has a document frequency. */
    method Prepare(documents: seq<SingleResult>, q: seq<string>, ghost penalty: map<string, real>, ghost last: real)
      returns (ghost relevant: real, ghost irrelevant: real)
      requires Valid() && penalty == markovPenalty && last == lastPrecision
      requires var ps := profiles + ProfilesOf(Fresh(history, Values(documents)), stop);
               HasGroup(ps, true) && HasGroup(ps, false)
      modifies this`query, this`history, this`terms, this`profiles, this`termToIdx, this`idxToTerm
      modifies this`docFreq, this`drN, this`dnrN, this`seeded
      ensures Valid()
      ensures query == Some(q)
      ensures Absorbed(old(history), old(profiles), old(drN), old(dnrN), old(Values(documents)), stop,
                       history, profiles, relevant, irrelevant)
      ensures relevant == drN && irrelevant == dnrN
      ensures KeepsIndices(old(termToIdx), termToIdx)
      ensures forall w :: w in seeded <==> w in old(seeded) || (w in q && Containing(profiles, w) == 0)
      ensures Preprocessed(old(termToIdx), termToIdx, profiles, q)
      ensures forall w :: w in query.value ==> w in termToIdx
      ensures Optimisable(CountTf(query.value, stop), profiles, docFreq)
      ensures markovPenalty == penalty && lastPrecision == last
    {
      PreProcession(documents, q);
      assert markovPenalty == penalty && lastPrecision == last;
      relevant, irrelevant := drN, dnrN;
      ProfileWordsIndexed(termToIdx, idxToTerm, docFreq, profiles, seeded, stop);
      QueryTfIndexed(q, stop, termToIdx, docFreq);
    }

    /** expand(rocchio(docVector(queryToTerm())), number): the second half of queryExpansion. */
    method ExpandOptimised(number: int, ghost q: seq<string>, ghost history0: set<string>,
                           ghost profiles0: seq<Profile>, ghost relevant0: real, ghost irrelevant0: real,
                           ghost docs: seq<Doc>, ghost penalty: map<string, real>, ghost relevant: real,
                           ghost irrelevant: real, ghost last: real) returns (next: Option<string>)
      requires Valid() && query == Some(q)
      requires Absorbed(history0, profiles0, relevant0, irrelevant0, docs, stop, history, profiles, relevant, irrelevant)
      requires forall w :: w in query.value ==> w in termToIdx
      requires Optimisable(CountTf(query.value, stop), profiles, docFreq)
      requires penalty == markovPenalty && relevant == drN && irrelevant == dnrN && last == lastPrecision
      requires |termToIdx| >= 2 ==> drN + dnrN != 0.0 && lastPrecision != 0.0
      modifies this`dr, this`dnr, this`markovPenalty, this`lastPrecision, this`drN, this`dnrN
      ensures Valid()
      ensures termToIdx == old(termToIdx) && seeded == old(seeded) && profiles == old(profiles)
      ensures query == Some(q)
      ensures Absorbed(history0, profiles0, relevant0, irrelevant0, docs, stop, history, profiles, relevant, irrelevant)
      ensures Optimisable(CountTf(query.value, stop), profiles, docFreq)
      ensures |termToIdx| < 2 ==>
                && next == (if 0 in idxToTerm then Some(idxToTerm[0]) else None)
                && drN == relevant && dnrN == irrelevant && markovPenalty == penalty && lastPrecision == last
      ensures |termToIdx| >= 2 ==>
                Expanded(next, OptimisedQuery(CountTf(query.value, stop), profiles, idxToTerm, docFreq, |termToIdx|,
                                              |terms| as real, weight),
                         penalty, relevant, irrelevant, last, number)
    {
      ProfileWordsIndexed(termToIdx, idxToTerm, docFreq, profiles, seeded, stop);
      QueryTfIndexed(query.value, stop, termToIdx, docFreq);
      next := ExpandIndexed(number, penalty, relevant, irrelevant, last);
    }

    /** ExpandOptimised once every word the query and the profiles count is known to be indexed. */
    method ExpandIndexed(number: int, ghost penalty: map<string, real>, ghost relevant: real,
                         ghost irrelevant: real, ghost last: real) returns (next: Option<string>)
      requires query.Some? && Stored() && DenseIndex(termToIdx, idxToTerm)
      requires forall w :: w in query.value ==> w in termToIdx
      requires forall w :: w in CountTf(query.value, stop) ==> w in docFreq && w in termToIdx
      requires forall k, w :: 0 <= k < |profiles| && w in profiles[k].tf ==> w in docFreq && w in termToIdx
      requires Optimisable(CountTf(query.value, stop), profiles, docFreq)
      requires penalty == markovPenalty && relevant == drN && irrelevant == dnrN && last == lastPrecision
      requires drN >= 0.0 && dnrN >= 0.0
      requires |termToIdx| >= 2 ==> drN + dnrN != 0.0 && lastPrecision != 0.0
      modifies this`dr, this`dnr, this`markovPenalty, this`lastPrecision, this`drN, this`dnrN
      ensures Stored() && drN >= 0.0 && dnrN >= 0.0
      ensures |termToIdx| < 2 ==>
                && next == (if 0 in idxToTerm then Some(idxToTerm[0]) else None)
                && drN == relevant && dnrN == irrelevant && markovPenalty == penalty && lastPrecision == last
      ensures |termToIdx| >= 2 ==>
                Expanded(next, OptimisedQuery(CountTf(query.value, stop), profiles, idxToTerm, docFreq, |termToIdx|,
                                              |terms| as real, weight),
                         penalty, relevant, irrelevant, last, number)
    {
      var qm := Optimise();
      next := Expand(qm, number);
    }

    /** rocchio(docVector(queryToTerm())): the current query's vector, optimised, in a new array. */
    method Optimise() returns (qm: array<real>)
      requires query.Some? && Stored() && DenseIndex(termToIdx, idxToTerm)
      requires forall w :: w in CountTf(query.value, stop) ==> w in docFreq && w in termToIdx
      requires forall k, w :: 0 <= k < |profiles| && w in profiles[k].tf ==> w in docFreq && w in termToIdx
      requires HasGroup(profiles, true) && HasGroup(profiles, false)
      requires Optimisable(CountTf(query.value, stop), profiles, docFreq)
      modifies this`dr, this`dnr
      ensures fresh(qm)
      ensures qm[..] == OptimisedQuery(CountTf(query.value, stop), profiles, idxToTerm, docFreq, |termToIdx|,
                                       |terms| as real, weight)
    {
      var q0 := QueryToTerm();
      var v := DocVector(q0);
      qm := Rocchio(v);
    }
  }
}
