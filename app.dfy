/**
 The top-level component: its state fields and the handlers that update them.
 A call to `fetch` is recorded as a `Request` in `requests`; the response is
 delivered later, as a separate step, by `SetSearchTopStories` (success) or
 `FetchFailed` (failure).
 */
module AppComponent {
  import opened Stories
  import opened Cache

  /** The opaque value a failed fetch rejects with. */
  datatype FetchError = FetchError(message: string)

  class App {
    var results: Results
    var searchKey: string
    var searchTerm: string
    var error: Option<FetchError>
    var isLoading: bool
    /** The state field `onDismiss` writes to; nothing reads it. */
    var result: Option<map<string, Entry>>
    /** Every request handed to `fetch`, oldest first. */
    var requests: seq<Request>

    constructor ()
      ensures results == None && searchKey == "" && searchTerm == DefaultQuery
      ensures error == None && !isLoading && result == None && requests == []
    {
      results := None;
      searchKey := "";
      searchTerm := DefaultQuery;
      error := None;
      isLoading := false;
      result := None;
      requests := [];
    }

    /** `fetchSearchTopStories(searchTerm, page)`: loading starts and one request goes out. */
    method FetchSearchTopStories(term: string, page: int)
      modifies this`isLoading, this`requests
      ensures isLoading
      ensures requests == old(requests) + [Request(term, page, DefaultHitsPerPage)]
    {
      isLoading := true;
      requests := requests + [Request(term, page, DefaultHitsPerPage)];
    }

    /**
     `setSearchTopStories(result)`: a response arrived. Its hits are merged under
     the search key current NOW, which need not be the term that was fetched.
     */
    method SetSearchTopStories(hits: seq<Hit>, page: int)
      modifies this`results, this`isLoading
      ensures results == Some(UpdateSearchTopStories(hits, page, searchKey, old(results)).results)
      ensures StoredHits(results, searchKey) == StoredHits(old(results), searchKey) + hits
      ensures StoredPage(results, searchKey) == page
      ensures forall k | k != searchKey :: Lookup(results, k) == Lookup(old(results), k)
      ensures !isLoading
    {
      var patch := UpdateSearchTopStories(hits, page, searchKey, results);
      MergeThenRead(hits, page, searchKey, results);
      results := Some(patch.results);
      isLoading := patch.isLoading;
    }

    /** The `.catch` of a fetch: the error is kept; loading is not switched off. */
    method FetchFailed(e: FetchError)
      modifies this`error
      ensures error == Some(e)
      ensures isLoading == old(isLoading)
    {
      error := Some(e);
    }

    /** `componentDidMount`: the default query becomes the search key and its first page is fetched. */
    method ComponentDidMount()
      modifies this`searchKey, this`isLoading, this`requests
      ensures searchKey == searchTerm
      ensures isLoading
      ensures requests == old(requests) + [Request(searchTerm, 0, DefaultHitsPerPage)]
    {
      searchKey := searchTerm;
      FetchSearchTopStories(searchTerm, 0);
    }

    /**
     `onDismiss(id)`: the entry for the search key is read (throwing when there
     is none) and the filtered copy is written to `result`, so `results`, which
     the view reads, keeps the dismissed hit.
     */
    method OnDismiss(id: string) returns (c: Completion)
      modifies this`result
      ensures c == ThrewTypeError <==> Lookup(results, searchKey).None?
      ensures c == ThrewTypeError ==> result == old(result)
      ensures c == Completed ==>
                var e := Lookup(results, searchKey).value;
                result == Some(results.value[searchKey := Entry(WithoutId(e.hits, id), e.page)])
      ensures results == old(results)
    {
      match Lookup(results, searchKey)
      case None =>
        c := ThrewTypeError;
      case Some(e) =>
        result := Some(results.value[searchKey := Entry(WithoutId(e.hits, id), e.page)]);
        c := Completed;
    }

    /** `onSearchChange(event)`: the input's text becomes the search term. */
    method OnSearchChange(value: string)
      modifies this`searchTerm
      ensures searchTerm == value
    {
      searchTerm := value;
    }

    /**
     `onSearchSubmit(event)`: the term becomes the search key; its first page
     is fetched only when nothing is cached for it. While `results` is still
     `null` the cache test throws, after the key update was issued.
     */
    method OnSearchSubmit() returns (c: Completion)
      modifies this`searchKey, this`isLoading, this`requests
      ensures searchKey == searchTerm
      ensures c == ThrewTypeError <==> results.None?
      ensures c == Completed && searchTerm !in results.value ==>
                isLoading && requests == old(requests) + [Request(searchTerm, 0, DefaultHitsPerPage)]
      ensures (c == ThrewTypeError || searchTerm in results.value) ==>
                isLoading == old(isLoading) && requests == old(requests)
    {
      searchKey := searchTerm;
      match NeedsToSearchTopStories(results, searchTerm)
      case TypeError =>
        c := ThrewTypeError;
      case Value(needed) =>
        if needed {
          FetchSearchTopStories(searchTerm, 0);
        }
        c := Completed;
    }

    /** The "More" button: fetch the page after the one shown, for the current search key. */
    method OnMore()
      modifies this`isLoading, this`requests
      ensures isLoading
      ensures requests == old(requests) + [Request(searchKey, StoredPage(results, searchKey) + 1, DefaultHitsPerPage)]
    {
      var page := StoredPage(results, searchKey);
      FetchSearchTopStories(searchKey, page + 1);
    }
  }
}
