/**
 The values the search-results browser works with: a hit as the search API
 returns it, the cached entry for one search key, and the requests handed to
 the network layer.
 */
module Stories {

  datatype Option<+T> = None | Some(value: T)

  /** One search result (`objectID`, `title`, `url`, `author`, `num_comments`, `points`). */
  datatype Hit = Hit(objectID: string, title: string, url: string, author: string,
                     numComments: int, points: int)

  /** What the cache keeps for one search key: every hit fetched so far, and the last page. */
  datatype Entry = Entry(hits: seq<Hit>, page: int)

  /** The `results` state field: `null` until the first page arrives, then an object keyed by search key. */
  type Results = Option<map<string, Entry>>

  /** How a piece of JavaScript finished: with a value, or by throwing a `TypeError`
      (reading a property of `null` or `undefined`). */
  datatype Outcome<+T> = Value(value: T) | TypeError

  /** How an event handler finished. */
  datatype Completion = Completed | ThrewTypeError

  /** The query the page starts with. */
  const DefaultQuery: string := "redux"

  /** The `hitsPerPage` parameter of every request. */
  const DefaultHitsPerPage: nat := 100

  /** The parameters of one search request: `query`, `page` and `hitsPerPage`. */
  datatype Request = Request(query: string, page: int, hitsPerPage: nat)
}
