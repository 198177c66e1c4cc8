/**
 The in-memory vector store as the source has it: an object whose dictionaries are updated in place
 (apps/knowledge_hub/vector_store.py), proved against the functions of `Bm25` and `Bm25Scoring`.
 */
module VectorStore {
  import opened Wrappers
  import opened Sorting
  import Bm25
  import opened Bm25Scoring

  lemma TermCountsNext(terms: seq<string>, i: nat)
    requires i < |terms|
    ensures Bm25.TermCounts(terms[..i + 1])
         == var tc := Bm25.TermCounts(terms[..i]); tc[terms[i] := Frequency(tc, terms[i]) + 1]
  {
    var before, after := terms[..i], terms[..i + 1];
    assert after == before + [terms[i]];
    assert multiset(after) == multiset(before) + multiset{terms[i]};
    assert forall u :: u in after <==> u == terms[i] || u in before;
  }

  lemma AppendAssociates<T>(a: seq<T>, b: seq<T>, c: seq<T>)
    ensures a + (b + c) == a + b + c
  {
  }

  lemma PostNone(ix: Bm25.Index, id: string, tc: Bm25.Counts)
    ensures Bm25.Posted(ix, id, tc - tc.Keys) == ix.postings
  {
    assert tc - tc.Keys == map[];
  }

  lemma PostNext(ix: Bm25.Index, id: string, tc: Bm25.Counts, todo: set<string>, term: string)
    requires term in todo && todo <= tc.Keys
    ensures Bm25.Posted(ix, id, tc - (todo - {term}))
         == (var posted := Bm25.Posted(ix, id, tc - todo);
             posted[term := (if term in posted then posted[term] else map[])[id := tc[term]]])
  {
  }

  /** `sum(m.values())`, whatever order the values come in. */
  method SumValues(m: map<string, nat>) returns (total: nat)
    ensures total == Sum(m)
  {
    total := 0;
    var todo := m;
    while todo != map[]
      invariant total + Sum(todo) == Sum(m)
      decreases |todo|
    {
      var k :| k in todo;
      SumWithout(todo, k);
      total := total + todo[k];
      todo := todo - {k};
    }
  }

  class InMemoryVectorStore {
    const log: real -> real
    var docs: map<string, Bm25.Doc>
    var order: seq<string>                          // the keys of `docs` in insertion order
    var bm25Index: map<string, Bm25.Counts>         // term -> document id -> count
    var docTermCounts: map<string, Bm25.Counts>     // document id -> term -> count

    constructor (log: real -> real)
      ensures this.log == log && View() == Bm25.EMPTY && Valid()
    {
      this.log := log;
      docs, order, bm25Index, docTermCounts := map[], [], map[], map[];
    }

    ghost function View(): Bm25.Index
      reads this
    {
      Bm25.Index(docs, order, bm25Index, docTermCounts)
    }

    ghost predicate Valid()
      reads this
    {
      Bm25.Valid(View())
    }

    method CountTerms(terms: seq<string>) returns (termCounts: Bm25.Counts)
      ensures termCounts == Bm25.TermCounts(terms)
    {
      termCounts := map[];
      for i := 0 to |terms|
        invariant termCounts == Bm25.TermCounts(terms[..i])
      {
        TermCountsNext(terms, i);
        termCounts := termCounts[terms[i] := (if terms[i] in termCounts then termCounts[terms[i]] else 0) + 1];
      }
      assert terms[..|terms|] == terms;
    }

    method UpdateBm25(doc: Bm25.Doc)
      modifies this`bm25Index, this`docTermCounts
      ensures docTermCounts == old(docTermCounts)[doc.id := Bm25.TermCounts(doc.terms)]
      ensures bm25Index == Bm25.Posted(old(View()), doc.id, Bm25.TermCounts(doc.terms))
    {
      var termCounts := CountTerms(doc.terms);
      docTermCounts := docTermCounts[doc.id := termCounts];
      PostTerms(doc.id, termCounts);
    }

    /** The second loop of `_update_bm25`. */
    method PostTerms(docId: string, termCounts: Bm25.Counts)
      modifies this`bm25Index
      ensures bm25Index == Bm25.Posted(old(View()), docId, termCounts)
    {
      hide Bm25.Posted;
      ghost var before := old(View());
      var todo := termCounts.Keys;
      PostNone(before, docId, termCounts);
      while todo != {}
        invariant todo <= termCounts.Keys
        invariant bm25Index == Bm25.Posted(before, docId, termCounts - todo)
        decreases todo
      {
        var term :| term in todo;
        PostNext(before, docId, termCounts, todo, term);
        ghost var posted := bm25Index;
        if term !in bm25Index {
          bm25Index := bm25Index[term := map[]];
        }
        bm25Index := bm25Index[term := bm25Index[term][docId := termCounts[term]]];
        assert bm25Index == posted[term := (if term in posted then posted[term] else map[])[docId := termCounts[term]]];
        todo := todo - {term};
      }
      assert termCounts - {} == termCounts;
    }

    method RemoveFromBm25(docId: string)
      modifies this`bm25Index, this`docTermCounts
      ensures docId !in old(docTermCounts) ==> bm25Index == old(bm25Index) && docTermCounts == old(docTermCounts)
      ensures docId in old(docTermCounts) ==>
                && bm25Index == Bm25.Unposted(old(bm25Index), docId, old(docTermCounts)[docId].Keys)
                && docTermCounts == old(docTermCounts) - {docId}
    {
      if docId !in docTermCounts {
        return;
      }
      ghost var before := bm25Index;
      var terms := docTermCounts[docId].Keys;
      var todo := terms;
      while todo != {}
        invariant todo <= terms
        invariant docTermCounts == old(docTermCounts)
        invariant bm25Index == Bm25.Unposted(before, docId, terms - todo)
        decreases todo
      {
        var term :| term in todo;
        if term in bm25Index {
          bm25Index := bm25Index[term := bm25Index[term] - {docId}];
          if bm25Index[term] == map[] {
            bm25Index := bm25Index - {term};
          }
        }
        todo := todo - {term};
      }
      assert terms - todo == terms;
      docTermCounts := docTermCounts - {docId};
    }

    method Upsert(doc: Bm25.Doc)
      requires Valid()
      modifies this
      ensures View() == Bm25.Upsert(old(View()), doc) && Valid()
    {
      Bm25.UpsertKeepsValid(View(), doc);
      UpdateBm25(doc);
      if doc.id !in docs {
        order := order + [doc.id];
      }
      docs := docs[doc.id := doc];
    }

    method UpsertBatch(batch: seq<Bm25.Doc>)
      requires Valid()
      modifies this
      ensures View() == Bm25.Run(old(View()), seq(|batch|, i requires 0 <= i < |batch| => Bm25.Put(batch[i])))
      ensures Valid()
    {
      ghost var ops := seq(|batch|, i requires 0 <= i < |batch| => Bm25.Put(batch[i]));
      for i := 0 to |batch|
        invariant Valid()
        invariant Bm25.Run(View(), ops[i..]) == Bm25.Run(old(View()), ops)
      {
        assert ops[i..][0] == Bm25.Put(batch[i]) && ops[i..][1..] == ops[i + 1..];
        Upsert(batch[i]);
      }
    }

    method Delete(documentId: string)
      requires Valid()
      modifies this
      ensures View() == Bm25.Delete(old(View()), documentId) && Valid()
    {
      Bm25.DeleteKeepsValid(View(), documentId);
      RemoveFromBm25(documentId);
      docs := docs - {documentId};
      order := Bm25.Without(order, documentId);
    }

    method TotalLength() returns (total: nat)
      ensures total == Sum(Lengths(View()))
    {
      total := 0;
      var todo := docTermCounts.Keys;
      ghost var left := Lengths(View());
      while todo != {}
        invariant todo <= docTermCounts.Keys && left.Keys == todo
        invariant forall id :: id in todo ==> left[id] == Sum(docTermCounts[id])
        invariant total + Sum(left) == Sum(Lengths(View()))
        decreases todo
      {
        var id :| id in todo;
        SumWithout(left, id);
        var length := SumValues(docTermCounts[id]);
        total := total + length;
        todo := todo - {id};
        left := left - {id};
      }
    }

    method ScoreTerm(term: string, docId: string, docLen: nat, avgDocLen: real) returns (score: real)
      requires docId in docTermCounts && docLen == Sum(docTermCounts[docId]) && avgDocLen == AverageLength(View())
      ensures score == TermScore(View(), log, term, docId)
    {
      hide AverageLength, Sum;
      NormPositive(View(), docId);
      if term !in bm25Index {
        return 0.0;
      }
      var docTerms := docTermCounts[docId];
      var df := |bm25Index[term]|;
      var idf := log((|docTermCounts| as real - df as real + 0.5) / (df as real + 0.5) + 1.0);
      var tf := if term in docTerms then docTerms[term] else 0;
      var numerator := tf as real * (1.5 + 1.0);
      var denominator :=
        tf as real + 1.5 * (1.0 - 0.75 + 0.75 * docLen as real / (if avgDocLen > 1.0 then avgDocLen else 1.0));
      score := idf * numerator / denominator;
    }

    method Bm25Score(queryTerms: seq<string>, docId: string) returns (score: real)
      ensures score == Score(View(), log, queryTerms, docId)
    {
      hide TermScore, Sum, Lengths;
      if docId !in docTermCounts {
        return 0.0;
      }
      var docLen := SumValues(docTermCounts[docId]);
      var total := TotalLength();
      var avgDocLen := total as real / (if |docTermCounts| > 1 then |docTermCounts| as real else 1.0);
      score := 0.0;
      for i := 0 to |queryTerms|
        invariant score + ScoreOf(View(), log, queryTerms[i..], docId) == ScoreOf(View(), log, queryTerms, docId)
      {
        assert queryTerms[i..][0] == queryTerms[i] && queryTerms[i..][1..] == queryTerms[i + 1..];
        var contribution := ScoreTerm(queryTerms[i], docId, docLen, avgDocLen);
        score := score + contribution;
      }
    }

    method Search(queryTerms: seq<string>, topK: int, threshold: Option<real>, tagsFilter: seq<string>)
      returns (results: seq<Hit>)
      requires Valid()
      ensures results == Bm25Scoring.Search(View(), log, queryTerms, topK, threshold, tagsFilter)
    {
      var scores := Collect(queryTerms, threshold, tagsFilter);
      results := Take(Sort(scores, ByScore()), topK);
    }

    /** The loop of `search` over the stored documents. */
    method Collect(queryTerms: seq<string>, threshold: Option<real>, tagsFilter: seq<string>) returns (scores: seq<Hit>)
      requires forall k :: 0 <= k < |order| ==> order[k] in docs
      ensures scores == Hits(View(), log, queryTerms, tagsFilter, threshold, order)
    {
      hide Score, TagsPass;
      scores := [];
      ghost var ix := View();
      ghost var rest := Hits(ix, log, queryTerms, tagsFilter, threshold, order);
      assert order[0..] == order;
      for i := 0 to |order|
        invariant rest == Hits(ix, log, queryTerms, tagsFilter, threshold, order[i..])
        invariant scores + rest == Hits(ix, log, queryTerms, tagsFilter, threshold, order)
      {
        HitsStep(ix, log, queryTerms, tagsFilter, threshold, order, i);
        rest := Hits(ix, log, queryTerms, tagsFilter, threshold, order[i + 1..]);
        var docId := order[i];
        var doc := docs[docId];
        if TagsPass(doc, tagsFilter) {
          var score := Bm25Score(queryTerms, docId);
          if score > 0.0 && (threshold.None? || score >= threshold.value) {
            AppendAssociates(scores, [Hit(doc, score)], rest);
            scores := scores + [Hit(doc, score)];
          }
        }
      }
      assert order[|order|..] == [];
    }

    method Get(documentId: string) returns (doc: Option<Bm25.Doc>)
      ensures doc == if documentId in docs then Some(docs[documentId]) else None
    {
      doc := if documentId in docs then Some(docs[documentId]) else None;
    }
  }
}
