/**
 The result table: which column it sorts by, whether that order is reversed,
 and the list it renders.
 */
module TableComponent {
  import opened Stories
  import opened Sorting

  /** The table's state: `sortKey` and `isSortReverse`. */
  datatype SortState = SortState(sortKey: SortKey, isSortReverse: bool)

  const InitialSortState := SortState(NONE, false)

  /**
   `onSort(sortKey)`: the chosen key becomes active; the order is reversed
   exactly when the same key was already active and not reversed.
   */
  function OnSortState(s: SortState, k: SortKey): (r: SortState)
    ensures r.sortKey == k
    ensures s.sortKey != k ==> !r.isSortReverse
    ensures s.sortKey == k ==> r.isSortReverse == !s.isSortReverse
  {
    SortState(k, s.sortKey == k && !s.isSortReverse)
  }

  /** The state after the header buttons `clicks` are pressed in turn. */
  function Run(s: SortState, clicks: seq<SortKey>): SortState
    decreases |clicks|
  {
    if |clicks| == 0 then s else Run(OnSortState(s, clicks[0]), clicks[1..])
  }

  /** The four header buttons pass TITLE, AUTHOR, COMMENTS or POINTS, never NONE. */
  predicate HeaderClicks(clicks: seq<SortKey>)
  {
    forall i | 0 <= i < |clicks| :: clicks[i] != NONE
  }

  /** What the header buttons keep: the unsorted order is never reversed. */
  predicate NoneNotReversed(s: SortState)
  {
    s.sortKey == NONE ==> !s.isSortReverse
  }

  lemma {:induction false} RunKeepsNoneNotReversed(s: SortState, clicks: seq<SortKey>)
    requires NoneNotReversed(s)
    requires HeaderClicks(clicks)
    ensures NoneNotReversed(Run(s, clicks))
    ensures |clicks| > 0 ==> Run(s, clicks).sortKey != NONE
    decreases |clicks|
  {
    if |clicks| > 0 {
      assert clicks[0] != NONE;
      assert HeaderClicks(clicks[1..]) by {
        forall i | 0 <= i < |clicks| - 1 ensures clicks[1..][i] != NONE {
          assert clicks[1..][i] == clicks[i + 1];
        }
      }
      RunKeepsNoneNotReversed(OnSortState(s, clicks[0]), clicks[1..]);
    }
  }

  /**
   Reachable states: from the initial state the header buttons never reach
   (NONE, reversed); they reach every other state.
   */
  lemma ReachableSortStates(clicks: seq<SortKey>, k: SortKey, reverse: bool)
    requires HeaderClicks(clicks)
    ensures Run(InitialSortState, clicks) != SortState(NONE, true)
    ensures k != NONE ==> Run(InitialSortState, if reverse then [k, k] else [k]) == SortState(k, reverse)
  {
    RunKeepsNoneNotReversed(InitialSortState, clicks);
    if k != NONE {
      var once := OnSortState(InitialSortState, k);
      assert [k][1..] == [] && [k, k][1..] == [k];
      assert Run(InitialSortState, [k]) == Run(once, []) == once;
      assert Run(InitialSortState, [k, k]) == Run(once, [k]) == OnSortState(once, k);
    }
  }

  /** The rows the table renders: the `SORTS` entry for the key, reversed when the flag is set. */
  function RenderedRows(s: SortState, list: seq<Hit>): (rows: seq<Hit>)
    ensures multiset(rows) == multiset(list)
    ensures s.sortKey == NONE ==> rows == if s.isSortReverse then Reversed(list) else list
    ensures s.sortKey in {TITLE, AUTHOR} ==>
              var p := if s.sortKey == TITLE then ByTitle else ByAuthor;
              if s.isSortReverse then SortedDescending(rows, p) else Sorted(rows, p)
    ensures s.sortKey in {COMMENTS, POINTS} ==>
              var p := if s.sortKey == COMMENTS then ByNumComments else ByPoints;
              if s.isSortReverse then Sorted(rows, p) else SortedDescending(rows, p)
  {
    var sorted := Sorts(s.sortKey, list);
    ReversedSorted(sorted, ByTitle);
    ReversedSorted(sorted, ByAuthor);
    ReversedSorted(sorted, ByNumComments);
    ReversedSorted(sorted, ByPoints);
    if s.isSortReverse then Reversed(sorted) else sorted
  }

  /** `sortedList.reverse()`: reverses the array in place. */
  method ReverseInPlace(a: array<Hit>)
    modifies a
    ensures a[..] == Reversed(old(a[..]))
  {
    ghost var s := a[..];
    var lo, hi := 0, a.Length;
    while lo + 1 < hi
      invariant 0 <= lo <= hi <= a.Length && lo + hi == a.Length
      invariant forall k | 0 <= k < lo :: a[k] == s[a.Length - 1 - k]
      invariant forall k | hi <= k < a.Length :: a[k] == s[a.Length - 1 - k]
      invariant forall k | lo <= k < hi :: a[k] == s[k]
    {
      a[lo], a[hi - 1] := a[hi - 1], a[lo];
      lo, hi := lo + 1, hi - 1;
    }
    assert forall k | 0 <= k < a.Length :: a[k] == s[a.Length - 1 - k];
    assert a[..] == Reversed(s);
  }

  class Table {
    var sortKey: SortKey
    var isSortReverse: bool

    constructor ()
      ensures sortKey == NONE && !isSortReverse
    {
      sortKey := NONE;
      isSortReverse := false;
    }

    /** `onSort(sortKey)`. */
    method OnSort(k: SortKey)
      modifies this
      ensures SortState(sortKey, isSortReverse) == OnSortState(old(SortState(sortKey, isSortReverse)), k)
    {
      isSortReverse := sortKey == k && !isSortReverse;
      sortKey := k;
    }

    /** The list `render` maps to rows: sorted by the active key, then reversed in place if the flag is set. */
    method Render(list: seq<Hit>) returns (rows: seq<Hit>)
      ensures rows == RenderedRows(SortState(sortKey, isSortReverse), list)
    {
      var sorted := Sorts(sortKey, list);
      var a := new Hit[|sorted|](i requires 0 <= i < |sorted| => sorted[i]);
      assert a[..] == sorted;
      if isSortReverse {
        ReverseInPlace(a);
      }
      rows := a[..];
    }
  }
}
