/**
 The per-search-key result cache: the pure updater that merges a fetched page,
 the read path the view uses, the cache-miss test, and the filter that
 dismiss computes.
 */
module Cache {
  import opened Stories

  /** `results && results[key]`: the entry stored for `key`, if `results` is an object holding one. */
  function Lookup(results: Results, key: string): Option<Entry>
  {
    if results.Some? && key in results.value then Some(results.value[key]) else None
  }

  /** `{...results}`: spreading `null` gives the empty object. */
  function Spread(results: Results): map<string, Entry>
  {
    if results.Some? then results.value else map[]
  }

  /** The hits the view lists for `key`: the stored hits, or none when nothing is stored. */
  function StoredHits(results: Results, key: string): (hits: seq<Hit>)
    ensures Lookup(results, key).None? ==> hits == []
    ensures Lookup(results, key).Some? ==> hits == Lookup(results, key).value.hits
  {
    match Lookup(results, key)
    case Some(e) => e.hits
    case None => []
  }

  /** The page the view shows for `key` and counts "More" from: the stored page, or 0. */
  function StoredPage(results: Results, key: string): (page: int)
    ensures Lookup(results, key).None? ==> page == 0
    ensures Lookup(results, key).Some? ==> page == Lookup(results, key).value.page
  {
    match Lookup(results, key)
    case Some(e) => e.page
    case None => 0
  }

  /** The part of the state the updater returns. */
  datatype Patch = Patch(results: map<string, Entry>, isLoading: bool)

  /**
   `updateSearchTopStories(hits, page)` applied to a state whose search key is
   `searchKey`: the fetched hits go after the hits already cached under that
   key, its page becomes `page`, every other key keeps its entry, and loading
   is over.
   */
  function UpdateSearchTopStories(hits: seq<Hit>, page: int, searchKey: string, results: Results): (p: Patch)
    ensures searchKey in p.results
    ensures p.results[searchKey].hits == StoredHits(results, searchKey) + hits
    ensures p.results[searchKey].page == page
    ensures p.results.Keys == Spread(results).Keys + {searchKey}
    ensures forall k | k in p.results && k != searchKey :: Lookup(Some(p.results), k) == Lookup(results, k)
    ensures !p.isLoading
  {
    var oldHits := StoredHits(results, searchKey);
    Patch(Spread(results)[searchKey := Entry(oldHits + hits, page)], false)
  }

  /** What the view shows after a merge: the old list followed by the new hits, on the new page. */
  lemma MergeThenRead(hits: seq<Hit>, page: int, searchKey: string, results: Results)
    ensures StoredHits(Some(UpdateSearchTopStories(hits, page, searchKey, results).results), searchKey)
            == StoredHits(results, searchKey) + hits
    ensures StoredPage(Some(UpdateSearchTopStories(hits, page, searchKey, results).results), searchKey) == page
    ensures forall k | k != searchKey ::
              StoredHits(Some(UpdateSearchTopStories(hits, page, searchKey, results).results), k) == StoredHits(results, k)
              && StoredPage(Some(UpdateSearchTopStories(hits, page, searchKey, results).results), k) == StoredPage(results, k)
  {
  }

  /** Two merges under the same key are one merge of both pages' hits, keeping the later page. */
  lemma MergeTwice(hits1: seq<Hit>, page1: int, hits2: seq<Hit>, page2: int, searchKey: string, results: Results)
    ensures UpdateSearchTopStories(hits2, page2, searchKey,
              Some(UpdateSearchTopStories(hits1, page1, searchKey, results).results)).results
            == UpdateSearchTopStories(hits1 + hits2, page2, searchKey, results).results
  {
    var once := UpdateSearchTopStories(hits1, page1, searchKey, results).results;
    assert StoredHits(Some(once), searchKey) + hits2 == StoredHits(results, searchKey) + (hits1 + hits2);
    assert Spread(Some(once))[searchKey := Entry(StoredHits(results, searchKey) + (hits1 + hits2), page2)]
        == Spread(results)[searchKey := Entry(StoredHits(results, searchKey) + (hits1 + hits2), page2)];
  }

  /**
   `needsToSearchTopStories(searchTerm)`: `!this.state.results[searchTerm]`.
   True exactly when no entry is cached for the term; reading a property of a
   `null` `results` throws.
   */
  function NeedsToSearchTopStories(results: Results, searchTerm: string): (r: Outcome<bool>)
    ensures r.TypeError? <==> results.None?
    ensures r.Value? ==> (r.value <==> Lookup(results, searchTerm).None?)
  {
    match results
    case None => TypeError
    case Some(m) => Value(searchTerm !in m)
  }

  /** After a merge the current key is cached, so submitting it again does not fetch; other keys are as before. */
  lemma MergedKeyNeedsNoSearch(hits: seq<Hit>, page: int, searchKey: string, results: Results, term: string)
    ensures NeedsToSearchTopStories(Some(UpdateSearchTopStories(hits, page, searchKey, results).results), term)
            == if term == searchKey then Value(false)
               else Value(Lookup(results, term).None?)
  {
  }

  /** `hits.filter(item => item.objectID !== id)`: every hit with that id is dropped, the rest kept. */
  function WithoutId(hits: seq<Hit>, id: string): (r: seq<Hit>)
    ensures |r| <= |hits|
    ensures forall h :: multiset(r)[h] == if h.objectID == id then 0 else multiset(hits)[h]
    ensures (forall h | h in hits :: h.objectID != id) ==> r == hits
  {
    if |hits| == 0 then []
    else
      var rest := WithoutId(hits[1..], id);
      assert hits == [hits[0]] + hits[1..];
      assert multiset(hits) == multiset{hits[0]} + multiset(hits[1..]);
      if hits[0].objectID != id then
        assert multiset([hits[0]] + rest) == multiset{hits[0]} + multiset(rest);
        [hits[0]] + rest
      else
        rest
  }

  /** `a` is `b` with some elements left out, the rest in their order in `b`. */
  predicate IsSubsequence(a: seq<Hit>, b: seq<Hit>)
    decreases |b|
  {
    |a| == 0 || (|b| > 0 && ((a[0] == b[0] && IsSubsequence(a[1..], b[1..])) || IsSubsequence(a, b[1..])))
  }

  /** The filter keeps the surviving hits in their original order. */
  lemma {:induction false} WithoutIdKeepsOrder(hits: seq<Hit>, id: string)
    ensures IsSubsequence(WithoutId(hits, id), hits)
  {
    if |hits| > 0 {
      WithoutIdKeepsOrder(hits[1..], id);
      var rest := WithoutId(hits[1..], id);
      if hits[0].objectID != id {
        assert ([hits[0]] + rest)[1..] == rest;
      }
    }
  }
}
