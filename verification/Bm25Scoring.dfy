/** BM25 scores and the search built on them, over the reals. */
module Bm25Scoring {
  import opened Sets
  import opened Wrappers
  import opened Sorting
  import opened Bm25

  // ---------- lengths ----------

  /** `sum(m.values())`. */
  ghost function Sum(m: map<string, nat>): nat
    decreases |m|
  {
    if m == map[] then 0 else
      var k :| k in m;
      m[k] + Sum(m - {k})
  }

  lemma {:induction false} SumWithout(m: map<string, nat>, k: string)
    requires k in m
    ensures Sum(m) == m[k] + Sum(m - {k})
    decreases |m|
  {
    var j :| j in m && Sum(m) == m[j] + Sum(m - {j});
    if j != k {
      SumWithout(m - {j}, k);
      SumWithout(m - {k}, j);
      assert m - {j} - {k} == m - {k} - {j};
    }
  }

  lemma SumWith(m: map<string, nat>, k: string, v: nat)
    ensures Sum(m[k := v]) == Sum(m) - Frequency(m, k) + v
  {
    SumWithout(m[k := v], k);
    assert m[k := v] - {k} == m - {k};
    if k in m {
      SumWithout(m, k);
    } else {
      assert m - {k} == m;
    }
  }

  lemma TermCountsCons(t: string, rest: seq<string>)
    ensures TermCounts([t] + rest) == TermCounts(rest)[t := Frequency(TermCounts(rest), t) + 1]
  {
    assert multiset([t] + rest) == multiset{t} + multiset(rest);
    assert forall u :: u in [t] + rest <==> u == t || u in rest;
  }

  /** The length of a document is the number of its tokens. */
  lemma {:induction false} LengthIsTermCount(terms: seq<string>)
    ensures Sum(TermCounts(terms)) == |terms|
  {
    if terms != [] {
      hide TermCounts, Sum;
      assert terms == [terms[0]] + terms[1..];
      LengthIsTermCount(terms[1..]);
      TermCountsCons(terms[0], terms[1..]);
      SumWith(TermCounts(terms[1..]), terms[0], Frequency(TermCounts(terms[1..]), terms[0]) + 1);
    }
  }

  ghost function Lengths(ix: Index): map<string, nat> {
    map id | id in ix.counts :: Sum(ix.counts[id])
  }

  ghost function AverageLength(ix: Index): real {
    Sum(Lengths(ix)) as real / (if |ix.counts| > 1 then |ix.counts| as real else 1.0)
  }

  // ---------- scores ----------

  ghost predicate IsLog(log: real -> real) {
    log(1.0) == 0.0 && forall x: real, y: real :: 0.0 < x < y ==> log(x) < log(y)
  }

  function IdfArgument(n: nat, df: nat): real {
    (n as real - df as real + 0.5) / (df as real + 0.5) + 1.0
  }

  ghost function Idf(ix: Index, log: real -> real, t: string): real {
    log(IdfArgument(|ix.counts|, |PostingsOf(ix, t)|))
  }

  function Frequency(tc: Counts, t: string): nat {
    if t in tc then tc[t] else 0
  }

  /** k1 * (1 - b + b * dl / avgdl), with k1 = 1.5 and b = 0.75. */
  function NormAt(length: real, average: real): real {
    1.5 * (1.0 - 0.75 + 0.75 * length / (if average > 1.0 then average else 1.0))
  }

  ghost function Norm(ix: Index, id: string): real
    requires id in ix.counts
  {
    NormAt(Sum(ix.counts[id]) as real, AverageLength(ix))
  }

  ghost function TermScore(ix: Index, log: real -> real, t: string, id: string): real
    requires id in ix.counts
  {
    var tf := Frequency(ix.counts[id], t) as real;
    NormPositive(ix, id);
    if t !in ix.postings then 0.0 else Idf(ix, log, t) * (tf * 2.5) / (tf + Norm(ix, id))
  }

  ghost function ScoreOf(ix: Index, log: real -> real, query: seq<string>, id: string): real
    requires id in ix.counts
  {
    if query == [] then 0.0 else TermScore(ix, log, query[0], id) + ScoreOf(ix, log, query[1..], id)
  }

  ghost function Score(ix: Index, log: real -> real, query: seq<string>, id: string): real {
    if id in ix.counts then ScoreOf(ix, log, query, id) else 0.0
  }

  /** The sum of the idf of the query terms that are indexed. */
  ghost function IdfSum(ix: Index, log: real -> real, query: seq<string>): real {
    if query == [] then 0.0
    else (if query[0] in ix.postings then Idf(ix, log, query[0]) else 0.0) + IdfSum(ix, log, query[1..])
  }

  lemma ProductOrder(a: real, b: real, d: real)
    requires d > 0.0
    ensures a * d < b * d <==> a < b
  {
    assert a < b ==> (b - a) * d > 0.0;
    assert a >= b ==> (a - b) * d >= 0.0;
  }

  lemma IdfClosedForm(n: nat, df: nat)
    ensures IdfArgument(n, df) == (n as real + 1.0) / (df as real + 0.5)
    ensures IdfArgument(n, df) > 0.0
    ensures IdfArgument(n, df) > 1.0 <==> df <= n
    ensures IdfArgument(n, df) != 1.0
  {
    var y := df as real + 0.5;
    var x := n as real - df as real + 0.5;
    var q, a := x / y, (x + y) / y;
    assert q * y == x && a * y == x + y && (q + 1.0) * y == x + y;
    ProductOrder(q + 1.0, a, y);
    ProductOrder(a, q + 1.0, y);
    ProductOrder(0.0, a, y);
    ProductOrder(1.0, a, y);
    ProductOrder(a, 1.0, y);
  }

  /** idf is log((N + 1) / (df + 0.5)), and positive exactly when df does not exceed N. */
  lemma IdfPositiveIff(ix: Index, log: real -> real, t: string)
    requires IsLog(log)
    ensures Idf(ix, log, t) == log((|ix.counts| as real + 1.0) / (|PostingsOf(ix, t)| as real + 0.5))
    ensures Idf(ix, log, t) > 0.0 <==> |PostingsOf(ix, t)| <= |ix.counts|
  {
    var a := IdfArgument(|ix.counts|, |PostingsOf(ix, t)|);
    IdfClosedForm(|ix.counts|, |PostingsOf(ix, t)|);
    assert a < 1.0 ==> log(a) < log(1.0);
    assert a > 1.0 ==> log(1.0) < log(a);
  }

  lemma NormPositive(ix: Index, id: string)
    requires id in ix.counts
    ensures Norm(ix, id) > 0.0
  {
    var avg := AverageLength(ix);
    var w := if avg > 1.0 then avg else 1.0;
    NonNegativeQuotient(0.75 * Sum(ix.counts[id]) as real, w);
  }

  lemma NonNegativeQuotient(x: real, y: real)
    requires x >= 0.0 && y > 0.0
    ensures x / y >= 0.0
  {
    assert (x / y) * y == x;
    ProductOrder(x / y, 0.0, y);
  }

  lemma QuotientSign(i: real, tf: real, norm: real)
    requires tf >= 0.0 && norm > 0.0
    ensures var s := i * (tf * 2.5) / (tf + norm);
            && (s > 0.0 <==> i > 0.0 && tf > 0.0)
            && (tf == 0.0 ==> s == 0.0)
            && (i > 0.0 ==> s < 2.5 * i)
  {
    var p, d := i * tf, tf + norm;
    var s := i * (tf * 2.5) / d;
    assert i * (tf * 2.5) == 2.5 * p;
    assert s * d == 2.5 * p;
    assert p > 0.0 <==> i > 0.0 && tf > 0.0 by {
      if tf > 0.0 { ProductOrder(0.0, i, tf); }
    }
    ProductOrder(0.0, s, d);
    ProductOrder(s, 0.0, d);
    if i > 0.0 {
      var slack := i * norm;
      assert slack > 0.0;
      assert 2.5 * i * d == 2.5 * p + 2.5 * slack;
      ProductOrder(s, 2.5 * i, d);
    }
  }

  lemma QuotientOfProduct(c: real, y: real)
    requires y > 0.0
    ensures c * y / y == c
  {
    var r := c * y / y;
    assert r * y == c * y;
    ProductOrder(r, c, y);
    ProductOrder(c, r, y);
  }

  /** An empty document has a quarter of k1, lengths count evenly, and averages below 1 count as 1. */
  lemma NormIsLinear(x: real, y: real, average: real)
    ensures NormAt(0.0, average) == 0.375
    ensures NormAt(x, average) + NormAt(y, average) == NormAt(x + y, average) + 0.375
    ensures average <= 1.0 ==> NormAt(x, average) == NormAt(x, 1.0)
  {
    var w := if average > 1.0 then average else 1.0;
    assert (0.75 * x) / w + (0.75 * y) / w == (0.75 * (x + y)) / w;
  }

  /** A term that occurs once in a document of average length scores exactly its idf. */
  lemma AverageOccurrenceScoresIdf(ix: Index, log: real -> real, t: string, id: string)
    requires id in ix.counts && t in ix.postings && Frequency(ix.counts[id], t) == 1
    requires Sum(ix.counts[id]) as real == AverageLength(ix) >= 1.0
    ensures TermScore(ix, log, t, id) == Idf(ix, log, t)
  {
    hide Idf;
    NormByLength(0.0, 0.0, AverageLength(ix));
    assert Norm(ix, id) == 1.5;
    QuotientOfProduct(Idf(ix, log, t), 2.5);
  }

  /** The average times the number of documents is the number of all tokens. */
  lemma AverageIsMean(ix: Index)
    requires |ix.counts| >= 1
    ensures AverageLength(ix) * |ix.counts| as real == Sum(Lengths(ix)) as real
  {
    hide Sum, Lengths;
    var n := |ix.counts| as real;
    assert n >= 1.0 && AverageLength(ix) == Sum(Lengths(ix)) as real / n;
    QuotientTimes(Sum(Lengths(ix)) as real, n);
  }

  lemma QuotientTimes(x: real, y: real)
    requires y != 0.0
    ensures x / y * y == x
  {
  }

  /** A query scores what its parts score, a repeated term as often as it is repeated. */
  lemma {:induction false} ScoreIsAdditive(ix: Index, log: real -> real, a: seq<string>, b: seq<string>, id: string)
    ensures Score(ix, log, a + b, id) == Score(ix, log, a, id) + Score(ix, log, b, id)
  {
    hide TermScore;
    if a == [] {
      assert a + b == b;
    } else {
      ScoreIsAdditive(ix, log, a[1..], b, id);
      assert (a + b)[0] == a[0] && (a + b)[1..] == a[1..] + b;
    }
  }

  /** The length part grows with the length and is k1 for a document of average length. */
  lemma NormByLength(x: real, y: real, average: real)
    ensures x < y ==> NormAt(x, average) < NormAt(y, average)
    ensures average >= 1.0 ==> NormAt(average, average) == 1.5
  {
    var w := if average > 1.0 then average else 1.0;
    var p, q := 0.75 * x / w, 0.75 * y / w;
    assert p * w == 0.75 * x && q * w == 0.75 * y;
    ProductOrder(p, q, w);
    if average >= 1.0 {
      assert w == average;
      QuotientOfProduct(0.75, average);
    }
  }

  /** More occurrences in a text no longer, or as many in a shorter one, make a higher score. */
  lemma QuotientGrows(i: real, tf: real, norm: real, tf': real, norm': real)
    requires i > 0.0 && norm > 0.0 && norm' > 0.0 && tf > 0.0 && tf' >= 0.0
    requires tf >= tf' && norm <= norm' && (tf > tf' || norm < norm')
    ensures i * (tf * 2.5) / (tf + norm) > i * (tf' * 2.5) / (tf' + norm')
  {
    var d, d' := tf + norm, tf' + norm';
    var s, s' := i * (tf * 2.5) / d, i * (tf' * 2.5) / d';
    var c := 2.5 * i;
    assert s * d == c * tf && s' * d' == c * tf';
    CrossProduct(tf, norm, tf', norm');
    assert c * (tf * d') > c * (tf' * d);
    assert (s * d) * d' == c * (tf * d') && (s' * d') * d == c * (tf' * d);
    assert s * (d * d') > s' * (d * d');
    assert d * d' > 0.0;
    ProductOrder(s', s, d * d');
  }

  lemma CrossProduct(tf: real, norm: real, tf': real, norm': real)
    requires norm > 0.0 && norm' > 0.0 && tf > 0.0 && tf' >= 0.0
    requires tf >= tf' && norm <= norm' && (tf > tf' || norm < norm')
    ensures tf * (tf' + norm') > tf' * (tf + norm)
  {
    var a, b := norm' - norm, tf - tf';
    var x, y := tf * a, b * norm;
    assert x >= 0.0 && y >= 0.0;
    assert b > 0.0 ==> y > 0.0;
    assert a > 0.0 ==> x > 0.0;
    assert tf * norm' == tf * norm + x;
    assert tf' * norm == tf * norm - y;
    assert tf * (tf' + norm') == tf * tf' + tf * norm';
    assert tf' * (tf + norm) == tf * tf' + tf' * norm;
  }

  /** For an indexed term with positive idf, frequency raises a document's score and length lowers it. */
  lemma FrequencyRaisesLengthLowers(ix: Index, log: real -> real, t: string, a: string, b: string)
    requires a in ix.counts && b in ix.counts && t in ix.postings && Idf(ix, log, t) > 0.0
    requires var tfA, tfB := Frequency(ix.counts[a], t), Frequency(ix.counts[b], t);
             var lenA, lenB := Sum(ix.counts[a]), Sum(ix.counts[b]);
             tfA > 0 && tfA >= tfB && lenA <= lenB && (tfA > tfB || lenA < lenB)
    ensures TermScore(ix, log, t, a) > TermScore(ix, log, t, b)
  {
    hide NormAt, Idf;
    NormPositive(ix, a);
    NormPositive(ix, b);
    NormByLength(Sum(ix.counts[a]) as real, Sum(ix.counts[b]) as real, AverageLength(ix));
    QuotientGrows(Idf(ix, log, t), Frequency(ix.counts[a], t) as real, Norm(ix, a),
                  Frequency(ix.counts[b], t) as real, Norm(ix, b));
  }

  lemma TermScoreSign(ix: Index, log: real -> real, t: string, id: string)
    requires IsLog(log) && id in ix.counts
    requires Frequency(ix.counts[id], t) > 0 ==> t in ix.postings
    ensures TermScore(ix, log, t, id) > 0.0
       <==> Frequency(ix.counts[id], t) > 0 && |PostingsOf(ix, t)| <= |ix.counts|
    ensures Frequency(ix.counts[id], t) == 0 ==> TermScore(ix, log, t, id) == 0.0
    ensures t in ix.postings && Idf(ix, log, t) > 0.0 ==> TermScore(ix, log, t, id) < 2.5 * Idf(ix, log, t)
  {
    hide Norm, Idf, IsLog;
    NormPositive(ix, id);
    IdfPositiveIff(ix, log, t);
    QuotientSign(Idf(ix, log, t), Frequency(ix.counts[id], t) as real, Norm(ix, id));
  }

  ghost predicate Shares(ix: Index, query: seq<string>, id: string) {
    exists t :: t in query && Holds(ix, id, t)
  }

  lemma CountsArePositive(ix: Index, id: string, t: string)
    requires Valid(ix) && id in ix.counts
    ensures Frequency(ix.counts[id], t) > 0 <==> Holds(ix, id, t)
    ensures Holds(ix, id, t) ==> t in ix.postings
  {
    if Holds(ix, id, t) {
      assert IsPosted(ix, t, id);
    }
  }

  /** No term of the stored documents is posted more often than there are documents. */
  ghost predicate NoOverposting(ix: Index) {
    forall t, id :: Holds(ix, id, t) ==> |PostingsOf(ix, t)| <= |ix.counts|
  }

  lemma {:induction false} ScoreSign(ix: Index, log: real -> real, query: seq<string>, id: string)
    requires Valid(ix) && NoOverposting(ix) && IsLog(log) && id in ix.counts
    ensures ScoreOf(ix, log, query, id) >= 0.0
    ensures ScoreOf(ix, log, query, id) > 0.0 <==> Shares(ix, query, id)
  {
    hide TermScore, Valid;
    if query != [] {
      var t := query[0];
      CountsArePositive(ix, id, t);
      TermScoreSign(ix, log, t, id);
      ScoreSign(ix, log, query[1..], id);
      assert query == [t] + query[1..];
      assert Shares(ix, query, id) <==> Holds(ix, id, t) || Shares(ix, query[1..], id);
    }
  }

  /**
   On any index a run can leave, a document scores above zero on every query it shares a term with if
   and only if no term of a stored document is posted more often than there are documents.
   */
  lemma EveryMatchScoresIff(ix: Index, log: real -> real)
    requires Valid(ix) && IsLog(log)
    ensures (forall query, id :: Shares(ix, query, id) ==> Score(ix, log, query, id) > 0.0) <==> NoOverposting(ix)
  {
    if NoOverposting(ix) {
      forall query, id | Shares(ix, query, id) ensures Score(ix, log, query, id) > 0.0 {
        hide ScoreOf, Shares;
        SharingIsStored(ix, query, id);
        ScoreSign(ix, log, query, id);
      }
    }
    if forall query, id :: Shares(ix, query, id) ==> Score(ix, log, query, id) > 0.0 {
      forall t, id | Holds(ix, id, t) ensures |PostingsOf(ix, t)| <= |ix.counts| {
        hide ScoreOf, Score;
        assert t in [t] && Shares(ix, [t], id);
        SingleTermScore(ix, log, t, id);
      }
    }
  }

  lemma SharingIsStored(ix: Index, query: seq<string>, id: string)
    requires Shares(ix, query, id)
    ensures id in ix.counts
  {
  }

  /** A one-term query finds a document with the term exactly when the term is not overposted. */
  lemma SingleTermScore(ix: Index, log: real -> real, t: string, id: string)
    requires Valid(ix) && IsLog(log) && Holds(ix, id, t)
    ensures Score(ix, log, [t], id) > 0.0 <==> |PostingsOf(ix, t)| <= |ix.counts|
  {
    hide TermScore, Valid;
    assert [t][1..] == [];
    assert ScoreOf(ix, log, [t], id) == TermScore(ix, log, t, id) + ScoreOf(ix, log, [], id);
    CountsArePositive(ix, id, t);
    TermScoreSign(ix, log, t, id);
  }

  lemma ExactNeverOverposts(ix: Index)
    requires Exact(ix)
    ensures NoOverposting(ix)
  {
    forall t, id | Holds(ix, id, t) ensures |PostingsOf(ix, t)| <= |ix.counts| {
      DocumentFrequency(ix, t);
    }
  }

  /** On an exact index every idf is positive, a score is positive iff a term is shared, and it is bounded. */
  lemma {:induction false} ExactScoreBounds(ix: Index, log: real -> real, query: seq<string>, id: string)
    requires Exact(ix) && IsLog(log) && id in ix.counts
    ensures ScoreOf(ix, log, query, id) > 0.0 <==> Shares(ix, query, id)
    ensures forall t :: Idf(ix, log, t) > 0.0
    ensures if exists t :: t in query && t in ix.postings
            then ScoreOf(ix, log, query, id) < 2.5 * IdfSum(ix, log, query)
            else ScoreOf(ix, log, query, id) == 0.0 == IdfSum(ix, log, query)
  {
    hide TermScore, Idf, Exact;
    ExactNeverOverposts(ix);
    assert Valid(ix) by { ExactIsValid(ix); }
    ScoreSign(ix, log, query, id);
    forall t ensures Idf(ix, log, t) > 0.0 {
      DocumentFrequency(ix, t);
      IdfPositiveIff(ix, log, t);
    }
    if query != [] {
      var t := query[0];
      assert query == [t] + query[1..];
      CountsArePositive(ix, id, t);
      TermScoreSign(ix, log, t, id);
      ExactScoreBounds(ix, log, query[1..], id);
      if t !in ix.postings {
        assert TermScore(ix, log, t, id) == 0.0;
      }
    }
  }

  lemma ExactIsValid(ix: Index)
    requires Exact(ix)
    ensures Valid(ix)
  {
  }

  // ---------- search ----------

  datatype Hit = Hit(doc: Doc, score: real)

  predicate TagsPass(doc: Doc, tags: seq<string>) {
    tags == [] || exists t :: t in tags && t in doc.tags
  }

  ghost predicate Selected(ix: Index, log: real -> real, query: seq<string>, tags: seq<string>,
                           threshold: Option<real>, id: string)
    requires id in ix.docs
  {
    && TagsPass(ix.docs[id], tags)
    && Score(ix, log, query, id) > 0.0
    && (threshold.Some? ==> Score(ix, log, query, id) >= threshold.value)
  }

  ghost function Hits(ix: Index, log: real -> real, query: seq<string>, tags: seq<string>,
                      threshold: Option<real>, order: seq<string>): seq<Hit>
    requires forall i :: 0 <= i < |order| ==> order[i] in ix.docs
  {
    if order == [] then [] else
      (if Selected(ix, log, query, tags, threshold, order[0])
       then [Hit(ix.docs[order[0]], Score(ix, log, query, order[0]))] else [])
      + Hits(ix, log, query, tags, threshold, order[1..])
  }

  function ByScore(): Hit -> real {
    (h: Hit) => -h.score
  }

  /** Python's `xs[:k]`, which for a negative `k` drops that many from the end. */
  function Take<T>(xs: seq<T>, k: int): seq<T> {
    if k >= |xs| then xs else if k >= 0 then xs[..k] else if |xs| + k >= 0 then xs[..|xs| + k] else []
  }

  ghost function Search(ix: Index, log: real -> real, query: seq<string>, topK: int,
                        threshold: Option<real>, tags: seq<string>): seq<Hit>
    requires Valid(ix)
  {
    Take(Sort(Hits(ix, log, query, tags, threshold, ix.order), ByScore()), topK)
  }

  ghost function Found(ix: Index, log: real -> real, query: seq<string>, tags: seq<string>,
                       threshold: Option<real>): set<string>
  {
    set id | id in ix.docs && Selected(ix, log, query, tags, threshold, id)
  }

  ghost predicate IsHit(ix: Index, log: real -> real, query: seq<string>, tags: seq<string>,
                        threshold: Option<real>, h: Hit)
  {
    && h.doc.id in ix.docs && ix.docs[h.doc.id] == h.doc
    && h.score == Score(ix, log, query, h.doc.id)
    && Selected(ix, log, query, tags, threshold, h.doc.id)
  }

  lemma {:induction false} HitsAreSelected(ix: Index, log: real -> real, query: seq<string>, tags: seq<string>,
                                           threshold: Option<real>, order: seq<string>)
    requires forall i :: 0 <= i < |order| ==> order[i] in ix.docs
    requires forall id :: id in ix.docs ==> ix.docs[id].id == id
    ensures forall h :: h in Hits(ix, log, query, tags, threshold, order) ==>
              IsHit(ix, log, query, tags, threshold, h) && h.doc.id in order
  {
    hide Selected, Score;
    if order != [] {
      HitsAreSelected(ix, log, query, tags, threshold, order[1..]);
    }
  }

  lemma {:induction false} SelectedAreHits(ix: Index, log: real -> real, query: seq<string>, tags: seq<string>,
                                           threshold: Option<real>, order: seq<string>, id: string)
    requires forall i :: 0 <= i < |order| ==> order[i] in ix.docs
    requires id in order && Selected(ix, log, query, tags, threshold, id)
    ensures Hit(ix.docs[id], Score(ix, log, query, id)) in Hits(ix, log, query, tags, threshold, order)
  {
    hide Selected, Score;
    if order[0] != id {
      SelectedAreHits(ix, log, query, tags, threshold, order[1..], id);
    }
  }

  ghost function Restrict(order: seq<string>, ids: set<string>): set<string> {
    set id | id in order && id in ids
  }

  lemma RestrictStep(order: seq<string>, ids: set<string>)
    requires order != []
    ensures Restrict(order, ids) == Restrict(order[1..], ids) + if order[0] in ids then {order[0]} else {}
  {
    assert forall id :: id in order <==> id == order[0] || id in order[1..];
  }

  lemma {:induction false} HitsCount(ix: Index, log: real -> real, query: seq<string>, tags: seq<string>,
                                     threshold: Option<real>, order: seq<string>)
    requires forall i :: 0 <= i < |order| ==> order[i] in ix.docs
    requires forall i, j :: 0 <= i < j < |order| ==> order[i] != order[j]
    ensures |Hits(ix, log, query, tags, threshold, order)|
         == |Restrict(order, Found(ix, log, query, tags, threshold))|
  {
    hide Selected, Score;
    var found := Found(ix, log, query, tags, threshold);
    if order == [] {
      assert Restrict(order, found) == {};
    } else {
      HitsCount(ix, log, query, tags, threshold, order[1..]);
      RestrictStep(order, found);
      assert order[0] !in Restrict(order[1..], found);
      assert order[0] in found <==> Selected(ix, log, query, tags, threshold, order[0]);
    }
  }

  /** One turn of the search loop. */
  lemma HitsStep(ix: Index, log: real -> real, query: seq<string>, tags: seq<string>,
                 threshold: Option<real>, order: seq<string>, i: nat)
    requires i < |order| && forall k :: i <= k < |order| ==> order[k] in ix.docs
    ensures Hits(ix, log, query, tags, threshold, order[i..])
         == (if Selected(ix, log, query, tags, threshold, order[i])
             then [Hit(ix.docs[order[i]], Score(ix, log, query, order[i]))] else [])
            + Hits(ix, log, query, tags, threshold, order[i + 1..])
  {
    assert order[i..][0] == order[i] && order[i..][1..] == order[i + 1..];
  }

  /** Where a document stands in the store. */
  function PositionIn(order: seq<string>, id: string): nat {
    if order == [] || order[0] == id then 0 else 1 + PositionIn(order[1..], id)
  }

  /** `a` comes before `b` in the answer: it scores higher, or the same and was stored earlier. */
  ghost predicate Before(order: seq<string>, a: Hit, b: Hit) {
    a.score > b.score || (a.score == b.score && PositionIn(order, a.doc.id) < PositionIn(order, b.doc.id))
  }

  ghost predicate Rising(hits: seq<Hit>, order: seq<string>) {
    forall i, j :: 0 <= i < j < |hits| ==> PositionIn(order, hits[i].doc.id) < PositionIn(order, hits[j].doc.id)
  }

  lemma {:induction false} PositionOf(order: seq<string>, k: nat)
    requires k < |order| && forall i, j :: 0 <= i < j < |order| ==> order[i] != order[j]
    ensures PositionIn(order, order[k]) == k
  {
    if k > 0 {
      assert order[1..][k - 1] == order[k];
      PositionOf(order[1..], k - 1);
    }
  }

  /** The hits are found in the order of the store. */
  lemma {:induction false} HitsRise(ix: Index, log: real -> real, query: seq<string>, tags: seq<string>,
                                    threshold: Option<real>, k: nat)
    requires Valid(ix) && k <= |ix.order|
    ensures var hits := Hits(ix, log, query, tags, threshold, ix.order[k..]);
            && (forall i :: 0 <= i < |hits| ==> PositionIn(ix.order, hits[i].doc.id) >= k)
            && Rising(hits, ix.order)
    decreases |ix.order| - k
  {
    hide Selected, Score, PositionIn;
    if k < |ix.order| {
      HitsRise(ix, log, query, tags, threshold, k + 1);
      HitsStep(ix, log, query, tags, threshold, ix.order, k);
      PositionOf(ix.order, k);
    }
  }

  lemma HitsRiseInOrder(ix: Index, log: real -> real, query: seq<string>, tags: seq<string>,
                        threshold: Option<real>)
    requires Valid(ix)
    ensures Rising(Hits(ix, log, query, tags, threshold, ix.order), ix.order)
  {
    hide Hits, PositionIn;
    assert ix.order[0..] == ix.order;
    HitsRise(ix, log, query, tags, threshold, 0);
  }

  lemma SortedInOrder(hits: seq<Hit>, order: seq<string>)
    requires Rising(hits, order)
    ensures var sorted := Sort(hits, ByScore());
            forall i, j :: 0 <= i < j < |sorted| ==> Before(order, sorted[i], sorted[j])
  {
    hide Sort, PositionIn;
    var sorted := Sort(hits, ByScore());
    var rank := (h: Hit) => PositionIn(order, h.doc.id);
    SortBreaksTiesByRank(hits, ByScore(), rank);
    forall i, j | 0 <= i < j < |sorted| ensures Before(order, sorted[i], sorted[j]) {
      assert ByScore()(sorted[i]) < ByScore()(sorted[j])
          || (ByScore()(sorted[i]) == ByScore()(sorted[j]) && rank(sorted[i]) < rank(sorted[j]));
    }
  }

  /** What a sorted list cut by `k` has over its source. */
  lemma TopOf(hits: seq<Hit>, order: seq<string>, k: int)
    requires Rising(hits, order)
    ensures var r := Take(Sort(hits, ByScore()), k);
            && |r| == Taken(|hits|, k)
            && (forall i :: 0 <= i < |r| ==> r[i] in hits)
            && (forall i, j :: 0 <= i < j < |r| ==> Before(order, r[i], r[j]))
            && (forall h :: h in hits && h !in r ==> forall i :: 0 <= i < |r| ==> Before(order, r[i], h))
  {
    hide Sort, Before, Rising;
    var sorted := Sort(hits, ByScore());
    SortSorts(hits, ByScore());
    SortedInOrder(hits, order);
    var r := Take(sorted, k);
    assert forall i :: 0 <= i < |r| ==> r[i] == sorted[i];
    forall i | 0 <= i < |r| ensures r[i] in hits {
      assert sorted[i] in sorted;
    }
    forall h, i | h in hits && h !in r && 0 <= i < |r| ensures Before(order, r[i], h) {
      assert h in sorted;
      var j :| 0 <= j < |sorted| && sorted[j] == h;
      assert j >= |r|;
    }
  }

  /** How many of `n` results `top_k` leaves: a negative one drops that many. */
  function Taken(n: nat, k: int): nat {
    if k >= n then n else if k >= 0 then k else if n + k >= 0 then n + k else 0
  }

  /**
   `search` returns hits only, each document once, by score and among equals in the order they were stored,
   as many as asked for or as there are; and every document it leaves out comes after all those it returns.
   */
  lemma SearchIsBest(ix: Index, log: real -> real, query: seq<string>, topK: int,
                     threshold: Option<real>, tags: seq<string>)
    requires Valid(ix)
    ensures var r := Search(ix, log, query, topK, threshold, tags);
            var found := Found(ix, log, query, tags, threshold);
            && |r| == Taken(|found|, topK)
            && (forall i :: 0 <= i < |r| ==> IsHit(ix, log, query, tags, threshold, r[i]))
            && (forall i, j :: 0 <= i < j < |r| ==> Before(ix.order, r[i], r[j]) && r[i].doc.id != r[j].doc.id)
            && (forall id :: id in found && Hit(ix.docs[id], Score(ix, log, query, id)) !in r ==>
                  forall i :: 0 <= i < |r| ==> Before(ix.order, r[i], Hit(ix.docs[id], Score(ix, log, query, id))))
  {
    hide Score, Selected, Take, Sort, PositionIn, Taken;
    HitsRiseInOrder(ix, log, query, tags, threshold);
    var hits := Hits(ix, log, query, tags, threshold, ix.order);
    TopOf(hits, ix.order, topK);
    HitsAreSelected(ix, log, query, tags, threshold, ix.order);
    HitsCount(ix, log, query, tags, threshold, ix.order);
    assert Restrict(ix.order, Found(ix, log, query, tags, threshold)) == Found(ix, log, query, tags, threshold);
    forall id | id in Found(ix, log, query, tags, threshold)
      ensures Hit(ix.docs[id], Score(ix, log, query, id)) in Hits(ix, log, query, tags, threshold, ix.order)
    {
      SelectedAreHits(ix, log, query, tags, threshold, ix.order, id);
    }
  }

  /**
   A tag filter asks for one of its tags: it finds what its tags find one by one, a single tag finds the part
   of what can be found without a filter that carries the tag, and so a further tag never loses a document.
   */
  lemma TagsWidenTheFilter(ix: Index, log: real -> real, query: seq<string>, tags: seq<string>, more: seq<string>,
                           threshold: Option<real>)
    ensures tags != [] ==> forall id :: id in Found(ix, log, query, tags, threshold) <==>
              exists t :: t in tags && id in Found(ix, log, query, [t], threshold)
    ensures forall t, id :: id in Found(ix, log, query, [t], threshold) <==>
              id in Found(ix, log, query, [], threshold) && t in ix.docs[id].tags
    ensures tags != [] ==> Found(ix, log, query, tags, threshold) <= Found(ix, log, query, tags + more, threshold)
  {
    hide Score;
    forall t: string, id: string | id in ix.docs ensures TagsPass(ix.docs[id], [t]) <==> t in ix.docs[id].tags {
      assert t in [t];
    }
    forall id | id in ix.docs && tags != [] && TagsPass(ix.docs[id], tags) ensures TagsPass(ix.docs[id], tags + more) {
      var t :| t in tags && t in ix.docs[id].tags;
      assert t in tags + more;
    }
  }

  /** A threshold keeps what scores at least as much, so a document's own score is one that it passes. */
  lemma ThresholdIsInclusive(ix: Index, log: real -> real, query: seq<string>, tags: seq<string>, least: real)
    ensures forall id :: id in Found(ix, log, query, tags, Some(least)) <==>
              id in Found(ix, log, query, tags, None) && Score(ix, log, query, id) >= least
    ensures forall id :: id in Found(ix, log, query, tags, None) ==>
              id in Found(ix, log, query, tags, Some(Score(ix, log, query, id)))
  {
    hide Score, TagsPass;
  }

  /** On an exact index and without a threshold, what can be found is what shares a query term. */
  lemma ExactSearchFindsSharing(ix: Index, log: real -> real, query: seq<string>, tags: seq<string>)
    requires Exact(ix) && IsLog(log)
    ensures Found(ix, log, query, tags, None)
         == set id | id in ix.docs && TagsPass(ix.docs[id], tags) && Shares(ix, query, id)
  {
    hide TermScore, Shares, TagsPass;
    forall id | id in ix.docs ensures Score(ix, log, query, id) > 0.0 <==> Shares(ix, query, id) {
      ExactScoreBounds(ix, log, query, id);
    }
  }

  /**
   A re-upsert that drops a term leaves a posting behind for good: after this run a stored document that
   contains "x" scores nothing on the query "x".
   */
  lemma StalePostingHidesADocument(log: real -> real)
    requires IsLog(log)
    ensures var ops := [Put(Doc("1", ["x", "y"], [])), Put(Doc("1", ["y"], [])), Drop("1"), Put(Doc("2", ["x"], []))];
            var ix := Run(EMPTY, ops);
            Holds(ix, "2", "x") && Score(ix, log, ["x"], "2") <= 0.0
  {
    hide Upsert, Delete, Valid, Run, Score;
    var a, b, c := Doc("1", ["x", "y"], []), Doc("1", ["y"], []), Doc("2", ["x"], []);
    var i2 := Upsert(Upsert(EMPTY, a), b);
    var i4 := Upsert(Delete(i2, "1"), c);
    RunOfFour(Put(a), Put(b), Drop("1"), Put(c));
    DroppedTermStaysPosted(a, b);
    StalePostingSurvivesDelete(i2);
    StalePostingIsCounted(Delete(i2, "1"), c);
    assert Valid(i4) by {
      hide Upsert, Delete;
      EmptyIsExact();
      UpsertKeepsValid(EMPTY, a);
      UpsertKeepsValid(Upsert(EMPTY, a), b);
      DeleteKeepsValid(i2, "1");
      UpsertKeepsValid(Delete(i2, "1"), c);
    }
    hide Valid, Upsert, Delete, Score;
    SingleTermScore(i4, log, "x", "2");
  }

  lemma DroppedTermStaysPosted(a: Doc, b: Doc)
    requires a.id == b.id == "1" && "x" in a.terms && "x" !in b.terms
    ensures var i2 := Upsert(Upsert(EMPTY, a), b);
            IsPosted(i2, "x", "1") && i2.counts.Keys == {"1"} && "x" !in i2.counts["1"]
  {
    assert "x" in TermCounts(a.terms) && "x" !in TermCounts(b.terms);
    assert IsPosted(Upsert(EMPTY, a), "x", "1");
  }

  lemma StalePostingSurvivesDelete(ix: Index)
    requires IsPosted(ix, "x", "1") && ix.counts.Keys == {"1"} && "x" !in ix.counts["1"]
    ensures IsPosted(Delete(ix, "1"), "x", "1") && Delete(ix, "1").counts == map[]
  {
  }

  lemma StalePostingIsCounted(ix: Index, c: Doc)
    requires IsPosted(ix, "x", "1") && ix.counts == map[] && c.id == "2" && "x" in c.terms
    ensures var i4 := Upsert(ix, c);
            Holds(i4, "2", "x") && |PostingsOf(i4, "x")| > |i4.counts|
  {
    var i4 := Upsert(ix, c);
    assert "x" in TermCounts(c.terms);
    assert i4.counts == map["2" := TermCounts(c.terms)];
    SubsetSize({"1", "2"}, PostingsOf(i4, "x").Keys);
    assert |PostingsOf(i4, "x")| == |PostingsOf(i4, "x").Keys| >= |{"1", "2"}| == 2;
  }

  lemma RunOfFour(a: Op, b: Op, c: Op, d: Op)
    ensures Run(EMPTY, [a, b, c, d]) == Apply(Apply(Apply(Apply(EMPTY, a), b), c), d)
  {
    hide Apply;
    var i1 := Apply(EMPTY, a);
    var i2 := Apply(i1, b);
    var i3 := Apply(i2, c);
    assert [a, b, c, d][1..] == [b, c, d] && [b, c, d][1..] == [c, d] && [c, d][1..] == [d] && [d][1..] == [];
    assert Run(i3, [d]) == Run(Apply(i3, d), []);
    assert Run(i2, [c, d]) == Run(i3, [d]);
    assert Run(i1, [b, c, d]) == Run(i2, [c, d]);
  }

  /**
   On an exact index a document stored without losing a term is found by each of its terms, under each of its
   tags and no other; once deleted it is not found. Other documents stay as they are stored.
   */
  lemma StoredIsFound(ix: Index, log: real -> real, doc: Doc, t: string, tag: string)
    requires Exact(ix) && IsLog(log) && Exact(Upsert(ix, doc)) && t in doc.terms
    ensures var after := Upsert(ix, doc);
            && doc.id in Found(after, log, [t], [], None)
            && (doc.id in Found(after, log, [t], [tag], None) <==> tag in doc.tags)
            && (forall id :: id != doc.id ==> (id in after.docs <==> id in ix.docs))
            && (forall id :: id in ix.docs && id != doc.id ==> after.docs[id] == ix.docs[id])
    ensures var gone := Delete(ix, doc.id);
            && doc.id !in Found(gone, log, [t], [], None)
            && gone.docs == ix.docs - {doc.id}
  {
    hide TermScore, Exact, TagsPass;
    var after := Upsert(ix, doc);
    assert Holds(after, doc.id, t) && Shares(after, [t], doc.id) by {
      assert t in TermCounts(doc.terms);
      assert t in [t];
    }
    ExactSearchFindsSharing(after, log, [t], []);
    TagsWidenTheFilter(after, log, [t], [], [], None);
    assert TagsPass(doc, []) by { NoTagsPass(doc); }
  }

  lemma NoTagsPass(doc: Doc)
    ensures TagsPass(doc, [])
  {
  }
}
