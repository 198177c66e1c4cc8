/**
 The BM25 knowledge index on values (apps/knowledge_hub/vector_store.py): a forward index of term
 counts, an inverted index of postings, and real-valued scoring over both.

 A document carries `terms`, the tokens of its title and content, and `log` is any strictly increasing
 function that is 0 at 1. `upsert` is modelled as written: it does not remove old postings.
 */
module Bm25 {
  import opened Sets
  import opened Sorting

  type Counts = map<string, nat>

  datatype Doc = Doc(id: string, terms: seq<string>, tags: seq<string>)

  datatype Index = Index(
    docs: map<string, Doc>,
    order: seq<string>,              // the keys of `docs` in insertion order
    postings: map<string, Counts>,   // term -> document id -> count
    counts: map<string, Counts>)     // document id -> term -> count

  const EMPTY := Index(map[], [], map[], map[])

  // ---------- updates ----------

  function TermCounts(terms: seq<string>): Counts {
    map t | t in terms :: multiset(terms)[t]
  }

  function PostingsOf(ix: Index, t: string): Counts {
    if t in ix.postings then ix.postings[t] else map[]
  }

  function Posted(ix: Index, id: string, tc: Counts): map<string, Counts> {
    map t | t in ix.postings.Keys + tc.Keys :: if t in tc then PostingsOf(ix, t)[id := tc[t]] else ix.postings[t]
  }

  function Upsert(ix: Index, doc: Doc): Index {
    var tc := TermCounts(doc.terms);
    Index(ix.docs[doc.id := doc],
          if doc.id in ix.docs then ix.order else ix.order + [doc.id],
          Posted(ix, doc.id, tc),
          ix.counts[doc.id := tc])
  }

  /** The postings with `id` taken out of the lists of `terms`; a list left empty goes away. */
  function Unposted(postings: map<string, Counts>, id: string, terms: set<string>): map<string, Counts> {
    map t | t in postings && !(t in terms && postings[t] - {id} == map[])
      :: if t in terms then postings[t] - {id} else postings[t]
  }

  function Without(order: seq<string>, id: string): seq<string> {
    Filter(order, (k: string) => k != id)
  }

  function Delete(ix: Index, id: string): Index {
    var docs, order := ix.docs - {id}, Without(ix.order, id);
    if id !in ix.counts then Index(docs, order, ix.postings, ix.counts)
    else Index(docs, order, Unposted(ix.postings, id, ix.counts[id].Keys), ix.counts - {id})
  }

  datatype Op = Put(doc: Doc) | Drop(id: string)

  function Apply(ix: Index, op: Op): Index {
    match op
    case Put(doc) => Upsert(ix, doc)
    case Drop(id) => Delete(ix, id)
  }

  function Run(ix: Index, ops: seq<Op>): Index
    decreases |ops|
  {
    if ops == [] then ix else Run(Apply(ix, ops[0]), ops[1..])
  }

  // ---------- the two indexes agree ----------

  ghost predicate ListsOnce(order: seq<string>, keys: set<string>) {
    && (forall i :: 0 <= i < |order| ==> order[i] in keys)
    && (forall k :: k in keys ==> k in order)
    && (forall i, j :: 0 <= i < j < |order| ==> order[i] != order[j])
  }

  ghost predicate IsPosted(ix: Index, t: string, id: string) {
    t in ix.postings && id in ix.postings[t]
  }

  ghost predicate Holds(ix: Index, id: string, t: string) {
    id in ix.counts && t in ix.counts[id]
  }

  /** What every run keeps: forward counts are contained in the postings, and no list is empty. */
  ghost predicate Valid(ix: Index) {
    && ix.docs.Keys == ix.counts.Keys
    && ListsOnce(ix.order, ix.docs.Keys)
    && (forall id :: id in ix.docs ==> ix.docs[id].id == id && ix.counts[id] == TermCounts(ix.docs[id].terms))
    && (forall t, id :: Holds(ix, id, t) ==> IsPosted(ix, t, id) && ix.postings[t][id] == ix.counts[id][t])
    && (forall t :: t in ix.postings ==> ix.postings[t] != map[])
  }

  /** The inverted index is exactly the transpose of the forward one. */
  ghost predicate Exact(ix: Index) {
    && Valid(ix)
    && (forall t, id :: IsPosted(ix, t, id) ==> Holds(ix, id, t))
  }

  lemma EmptyIsExact()
    ensures Exact(EMPTY) && Valid(EMPTY)
  {
  }

  lemma {:induction false} WithoutLists(order: seq<string>, keys: set<string>, id: string)
    requires ListsOnce(order, keys)
    ensures ListsOnce(Without(order, id), keys - {id})
  {
    FilterMembers(order, (k: string) => k != id);
    WithoutDistinct(order, id);
    var r := Without(order, id);
    forall i | 0 <= i < |r| ensures r[i] in keys - {id} {
      assert r[i] in r;
    }
  }

  lemma {:induction false} WithoutDistinct(order: seq<string>, id: string)
    requires forall i, j :: 0 <= i < j < |order| ==> order[i] != order[j]
    ensures var r := Without(order, id); forall i, j :: 0 <= i < j < |r| ==> r[i] != r[j]
  {
    if order != [] {
      WithoutDistinct(order[1..], id);
      FilterMembers(order[1..], (k: string) => k != id);
      var r := Without(order[1..], id);
      forall j | 0 <= j < |r| ensures order[0] != r[j] {
        assert r[j] in r;
      }
    }
  }

  lemma UpsertKeepsValid(ix: Index, doc: Doc)
    requires Valid(ix)
    ensures Valid(Upsert(ix, doc))
  {
    hide TermCounts;
    var ix' := Upsert(ix, doc);
    forall t, id | Holds(ix', id, t) ensures IsPosted(ix', t, id) && ix'.postings[t][id] == ix'.counts[id][t] {
      if id != doc.id { assert Holds(ix, id, t); }
    }
    forall t | t in ix'.postings ensures ix'.postings[t] != map[] {
      if t in TermCounts(doc.terms) { assert doc.id in ix'.postings[t]; }
    }
  }

  lemma DeleteKeepsValid(ix: Index, id: string)
    requires Valid(ix)
    ensures Valid(Delete(ix, id))
  {
    hide TermCounts, ListsOnce;
    var ix' := Delete(ix, id);
    WithoutLists(ix.order, ix.docs.Keys, id);
    assert ix'.docs.Keys == ix.docs.Keys - {id};
    if id in ix.counts {
      forall t, k | Holds(ix', k, t) ensures IsPosted(ix', t, k) && ix'.postings[t][k] == ix'.counts[k][t] {
        assert Holds(ix, k, t);
        assert k in ix.postings[t] - {id};
      }
    } else {
      assert ix'.counts == ix.counts && ix'.postings == ix.postings;
      assert forall t, k :: Holds(ix', k, t) <==> Holds(ix, k, t);
    }
  }

  /**
   An upsert keeps the indexes exactly transposed if and only if the id is not stored or every term of
   the stored text occurs again in the new one.
   */
  lemma UpsertKeepsExactIff(ix: Index, doc: Doc)
    requires Exact(ix)
    ensures Exact(Upsert(ix, doc)) <==> doc.id !in ix.docs || forall t :: t in ix.docs[doc.id].terms ==> t in doc.terms
  {
    UpsertKeepsValid(ix, doc);
    var ix' := Upsert(ix, doc);
    if doc.id !in ix.docs || forall t :: t in ix.docs[doc.id].terms ==> t in doc.terms {
      forall t, id | IsPosted(ix', t, id) ensures Holds(ix', id, t) {
        if t !in doc.terms || id != doc.id { assert IsPosted(ix, t, id); }
      }
    } else {
      var t :| t in ix.docs[doc.id].terms && t !in doc.terms;
      assert Holds(ix, doc.id, t);
      assert IsPosted(ix', t, doc.id) && !Holds(ix', doc.id, t);
    }
  }

  lemma DeleteKeepsExact(ix: Index, id: string)
    requires Exact(ix)
    ensures Exact(Delete(ix, id))
  {
    hide TermCounts, ListsOnce;
    DeleteKeepsValid(ix, id);
    var ix' := Delete(ix, id);
    forall t, k | IsPosted(ix', t, k) ensures Holds(ix', k, t) {
      assert IsPosted(ix, t, k);
    }
  }

  ghost predicate Guarded(ix: Index, op: Op) {
    op.Put? && op.doc.id in ix.docs ==> forall t :: t in ix.docs[op.doc.id].terms ==> t in op.doc.terms
  }

  ghost predicate GuardedRun(ix: Index, ops: seq<Op>)
    decreases |ops|
  {
    ops != [] ==> Guarded(ix, ops[0]) && GuardedRun(Apply(ix, ops[0]), ops[1..])
  }

  lemma {:induction false} RunKeepsValid(ix: Index, ops: seq<Op>)
    requires Valid(ix)
    ensures Valid(Run(ix, ops))
    decreases |ops|
  {
    if ops != [] {
      match ops[0] {
        case Put(doc) => UpsertKeepsValid(ix, doc);
        case Drop(id) => DeleteKeepsValid(ix, id);
      }
      RunKeepsValid(Apply(ix, ops[0]), ops[1..]);
    }
  }

  /** Runs whose upserts use ids not stored, or never lose a term of the stored text, stay exact. */
  lemma {:induction false} GuardedRunKeepsExact(ix: Index, ops: seq<Op>)
    requires Exact(ix) && GuardedRun(ix, ops)
    ensures Exact(Run(ix, ops))
    decreases |ops|
  {
    if ops != [] {
      match ops[0] {
        case Put(doc) => UpsertKeepsExactIff(ix, doc);
        case Drop(id) => DeleteKeepsExact(ix, id);
      }
      GuardedRunKeepsExact(Apply(ix, ops[0]), ops[1..]);
    }
  }

  /** Deleting undoes an insertion if and only if the index held no posting of the new id under its terms. */
  lemma DeleteUndoesInsertIff(ix: Index, doc: Doc)
    requires Valid(ix) && doc.id !in ix.docs
    ensures Delete(Upsert(ix, doc), doc.id) == ix <==> forall t :: t in doc.terms ==> !IsPosted(ix, t, doc.id)
  {
    hide Posted, Unposted;
    ForwardUndone(ix, doc);
    PostingsUndoneIff(ix, doc);
  }

  lemma ForwardUndone(ix: Index, doc: Doc)
    requires Valid(ix) && doc.id !in ix.docs
    ensures Delete(Upsert(ix, doc), doc.id)
         == ix.(postings := Unposted(Upsert(ix, doc).postings, doc.id, TermCounts(doc.terms).Keys))
  {
    hide TermCounts, Posted, Unposted;
    var up := Upsert(ix, doc);
    assert up.docs - {doc.id} == ix.docs && up.counts - {doc.id} == ix.counts;
    WithoutAbsent(ix.order, doc.id);
    FilterAppend(ix.order, [doc.id], (k: string) => k != doc.id);
  }

  lemma PostingsUndoneIff(ix: Index, doc: Doc)
    requires forall t :: t in ix.postings ==> ix.postings[t] != map[]
    ensures Unposted(Upsert(ix, doc).postings, doc.id, TermCounts(doc.terms).Keys) == ix.postings
       <==> forall t :: t in doc.terms ==> !IsPosted(ix, t, doc.id)
  {
    var tc := TermCounts(doc.terms);
    var up := Posted(ix, doc.id, tc);
    var back := Unposted(up, doc.id, tc.Keys);
    if forall t :: t in doc.terms ==> !IsPosted(ix, t, doc.id) {
      forall t | t in up
        ensures t in back <==> t in ix.postings
        ensures t in ix.postings ==> back[t] == ix.postings[t]
      {
        if t in tc {
          assert up[t] - {doc.id} == PostingsOf(ix, t);
        }
      }
      assert back == ix.postings;
    } else {
      var t :| t in doc.terms && IsPosted(ix, t, doc.id);
      assert t in tc;
      assert t !in back || doc.id !in back[t];
    }
  }

  lemma {:induction false} WithoutAbsent(order: seq<string>, id: string)
    requires forall i :: 0 <= i < |order| ==> order[i] != id
    ensures Without(order, id) == order
  {
    if order != [] {
      WithoutAbsent(order[1..], id);
    }
  }

  /** In an exact index the length of a posting list is the number of stored documents with the term. */
  lemma DocumentFrequency(ix: Index, t: string)
    requires Exact(ix)
    ensures PostingsOf(ix, t).Keys == set id | id in ix.docs && t in ix.docs[id].terms
    ensures |PostingsOf(ix, t)| <= |ix.counts|
  {
    forall id ensures id in PostingsOf(ix, t) <==> id in ix.docs && t in ix.docs[id].terms {
      assert IsPosted(ix, t, id) <==> Holds(ix, id, t);
    }
    assert PostingsOf(ix, t).Keys <= ix.counts.Keys;
    SubsetSize(PostingsOf(ix, t).Keys, ix.counts.Keys);
    assert |PostingsOf(ix, t).Keys| == |PostingsOf(ix, t)| && |ix.counts.Keys| == |ix.counts|;
  }
}
