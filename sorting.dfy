/**
 The comparator table the result table sorts by. lodash's `sortBy(list, prop)`
 is a stable ascending sort on one property; it is modelled here by an
 insertion sort with the same contract (sorted, a permutation, and equal keys
 keep their input order). JavaScript's `<` orders strings code unit by code
 unit and numbers numerically.
 */
module Sorting {
  import opened Stories

  /** The keys of `SORTS`. */
  datatype SortKey = NONE | TITLE | AUTHOR | COMMENTS | POINTS

  /** The hit property `sortBy` is given. */
  datatype Property = ByTitle | ByAuthor | ByNumComments | ByPoints

  /** The value of a property: `title` and `author` are strings, the counts are numbers. */
  datatype SortValue = Text(s: string) | Count(n: int)

  function Key(h: Hit, p: Property): SortValue
  {
    match p
    case ByTitle => Text(h.title)
    case ByAuthor => Text(h.author)
    case ByNumComments => Count(h.numComments)
    case ByPoints => Count(h.points)
  }

  /** Lexicographic order on strings, character by character, a prefix first. */
  predicate TextLe(a: string, b: string)
  {
    |a| == 0 || (|b| > 0 && (a[0] < b[0] || (a[0] == b[0] && TextLe(a[1..], b[1..]))))
  }

  lemma {:induction false} TextLeReflexive(a: string)
    ensures TextLe(a, a)
  {
    if |a| > 0 { TextLeReflexive(a[1..]); }
  }

  lemma {:induction false} TextLeTotal(a: string, b: string)
    ensures TextLe(a, b) || TextLe(b, a)
  {
    if |a| > 0 && |b| > 0 && a[0] == b[0] { TextLeTotal(a[1..], b[1..]); }
  }

  lemma {:induction false} TextLeAntisymmetric(a: string, b: string)
    requires TextLe(a, b) && TextLe(b, a)
    ensures a == b
  {
    if |a| > 0 && |b| > 0 {
      TextLeAntisymmetric(a[1..], b[1..]);
      assert a == [a[0]] + a[1..] && b == [b[0]] + b[1..];
    }
  }

  lemma {:induction false} TextLeTransitive(a: string, b: string, c: string)
    requires TextLe(a, b) && TextLe(b, c)
    ensures TextLe(a, c)
  {
    if |a| > 0 && |b| > 0 && |c| > 0 && a[0] == b[0] == c[0] {
      TextLeTransitive(a[1..], b[1..], c[1..]);
    }
  }

  /** The order `sortBy` compares values with. Numbers before strings; a single property never mixes them. */
  predicate ValueLe(x: SortValue, y: SortValue)
  {
    match (x, y)
    case (Text(a), Text(b)) => TextLe(a, b)
    case (Count(a), Count(b)) => a <= b
    case (Count(_), Text(_)) => true
    case (Text(_), Count(_)) => false
  }

  /** `ValueLe` is a total order. */
  lemma ValueLeTotalOrder(x: SortValue, y: SortValue, z: SortValue)
    ensures ValueLe(x, x)
    ensures ValueLe(x, y) || ValueLe(y, x)
    ensures ValueLe(x, y) && ValueLe(y, x) ==> x == y
    ensures ValueLe(x, y) && ValueLe(y, z) ==> ValueLe(x, z)
  {
    if x.Text? {
      TextLeReflexive(x.s);
      if y.Text? {
        TextLeTotal(x.s, y.s);
        if TextLe(x.s, y.s) && TextLe(y.s, x.s) { TextLeAntisymmetric(x.s, y.s); }
        if z.Text? && TextLe(x.s, y.s) && TextLe(y.s, z.s) { TextLeTransitive(x.s, y.s, z.s); }
      }
    }
  }

  /** Non-decreasing by property `p`. */
  predicate Sorted(s: seq<Hit>, p: Property)
  {
    forall i, j | 0 <= i < j < |s| :: ValueLe(Key(s[i], p), Key(s[j], p))
  }

  /** Non-increasing by property `p`. */
  predicate SortedDescending(s: seq<Hit>, p: Property)
  {
    forall i, j | 0 <= i < j < |s| :: ValueLe(Key(s[j], p), Key(s[i], p))
  }

  /** A sorted list stays sorted with an element in front that is at most all of it. */
  lemma SortedCons(x: Hit, s: seq<Hit>, p: Property)
    requires Sorted(s, p)
    requires forall y | y in s :: ValueLe(Key(x, p), Key(y, p))
    ensures Sorted([x] + s, p)
  {
  }

  /** Puts `x` into sorted `s` in front of the first element whose key is at least `x`'s. */
  function Insert(x: Hit, s: seq<Hit>, p: Property): (r: seq<Hit>)
    requires Sorted(s, p)
    ensures Sorted(r, p)
    ensures multiset(r) == multiset(s) + multiset{x}
  {
    if |s| == 0 then [x]
    else if ValueLe(Key(x, p), Key(s[0], p)) then
      assert forall y | y in s :: ValueLe(Key(x, p), Key(y, p)) by {
        forall y | y in s ensures ValueLe(Key(x, p), Key(y, p)) {
          ValueLeTotalOrder(Key(x, p), Key(s[0], p), Key(y, p));
        }
      }
      SortedCons(x, s, p);
      assert s == [s[0]] + s[1..];
      [x] + s
    else
      var rest := Insert(x, s[1..], p);
      assert forall y | y in rest :: ValueLe(Key(s[0], p), Key(y, p)) by {
        forall y | y in rest ensures ValueLe(Key(s[0], p), Key(y, p)) {
          assert y in multiset(rest);
          ValueLeTotalOrder(Key(s[0], p), Key(x, p), Key(y, p));
        }
      }
      SortedCons(s[0], rest, p);
      assert s == [s[0]] + s[1..];
      [s[0]] + rest
  }

  /** `sortBy(list, p)`: an ascending, stable sort of `list` by property `p`. */
  function SortBy(list: seq<Hit>, p: Property): (r: seq<Hit>)
    ensures Sorted(r, p)
    ensures multiset(r) == multiset(list)
  {
    if |list| == 0 then []
    else
      assert list == [list[0]] + list[1..];
      Insert(list[0], SortBy(list[1..], p), p)
  }

  /** The hits of `s` whose property `p` has value `v`, in their order in `s`. */
  function WithKey(s: seq<Hit>, p: Property, v: SortValue): seq<Hit>
  {
    if |s| == 0 then []
    else (if Key(s[0], p) == v then [s[0]] else []) + WithKey(s[1..], p, v)
  }

  lemma SortedTail(s: seq<Hit>, p: Property)
    requires |s| > 0 && Sorted(s, p)
    ensures Sorted(s[1..], p)
  {
  }

  lemma WithKeyCons(x: Hit, s: seq<Hit>, p: Property, v: SortValue)
    ensures WithKey([x] + s, p, v) == (if Key(x, p) == v then [x] else []) + WithKey(s, p, v)
  {
  }

  /** Two hits with different keys can trade places without changing any key's subsequence. */
  lemma WithKeySwap(x: Hit, y: Hit, r: seq<Hit>, t: seq<Hit>, p: Property, v: SortValue)
    requires !ValueLe(Key(x, p), Key(y, p))
    requires WithKey(r, p, v) == WithKey([x] + t, p, v)
    ensures WithKey([y] + r, p, v) == WithKey([x] + ([y] + t), p, v)
  {
    ValueLeTotalOrder(Key(x, p), Key(y, p), Key(y, p));
    WithKeyCons(y, r, p, v);
    WithKeyCons(x, t, p, v);
    WithKeyCons(y, t, p, v);
    WithKeyCons(x, [y] + t, p, v);
  }

  lemma {:induction false} WithKeyInsert(x: Hit, s: seq<Hit>, p: Property, v: SortValue)
    requires Sorted(s, p)
    ensures WithKey(Insert(x, s, p), p, v) == WithKey([x] + s, p, v)
  {
    if |s| > 0 && !ValueLe(Key(x, p), Key(s[0], p)) {
      SortedTail(s, p);
      WithKeyInsert(x, s[1..], p, v);
      WithKeySwap(x, s[0], Insert(x, s[1..], p), s[1..], p, v);
      assert s == [s[0]] + s[1..];
    }
  }

  /** `sortBy` is stable: the hits sharing one key value come out in their input order. */
  lemma {:induction false} SortByStable(list: seq<Hit>, p: Property, v: SortValue)
    ensures WithKey(SortBy(list, p), p, v) == WithKey(list, p, v)
  {
    if |list| > 0 {
      SortByStable(list[1..], p, v);
      WithKeyInsert(list[0], SortBy(list[1..], p), p, v);
      var sorted := SortBy(list[1..], p);
      assert ([list[0]] + sorted)[1..] == sorted;
    }
  }

  /** `.reverse()`: the same elements, last first. */
  function Reversed(s: seq<Hit>): (r: seq<Hit>)
    ensures |r| == |s|
    ensures forall i | 0 <= i < |s| :: r[i] == s[|s| - 1 - i]
    ensures multiset(r) == multiset(s)
  {
    if |s| == 0 then []
    else
      assert s == [s[0]] + s[1..];
      Reversed(s[1..]) + [s[0]]
  }

  lemma {:induction false} WithKeyAppend(a: seq<Hit>, b: seq<Hit>, p: Property, v: SortValue)
    ensures WithKey(a + b, p, v) == WithKey(a, p, v) + WithKey(b, p, v)
  {
    if |a| > 0 {
      WithKeyAppend(a[1..], b, p, v);
      assert a == [a[0]] + a[1..];
      assert a + b == [a[0]] + (a[1..] + b);
      WithKeyCons(a[0], a[1..], p, v);
      WithKeyCons(a[0], a[1..] + b, p, v);
    } else {
      assert a + b == b;
    }
  }

  /** Reversing a list reverses the order of the hits sharing one key value. */
  lemma {:induction false} WithKeyReversed(s: seq<Hit>, p: Property, v: SortValue)
    ensures WithKey(Reversed(s), p, v) == Reversed(WithKey(s, p, v))
  {
    if |s| > 0 {
      WithKeyReversed(s[1..], p, v);
      WithKeyAppend(Reversed(s[1..]), [s[0]], p, v);
      var head := if Key(s[0], p) == v then [s[0]] else [];
      var tail := WithKey(s[1..], p, v);
      assert WithKey([s[0]], p, v) == head;
      if Key(s[0], p) == v {
        assert ([s[0]] + tail)[1..] == tail;
      } else {
        assert head + tail == tail;
      }
    }
  }

  /** The `SORTS` table: each entry maps the list to an ordering of it. */
  function Sorts(key: SortKey, list: seq<Hit>): (r: seq<Hit>)
    ensures multiset(r) == multiset(list)
    ensures key == NONE ==> r == list
    ensures key == TITLE ==> Sorted(r, ByTitle)
    ensures key == AUTHOR ==> Sorted(r, ByAuthor)
    ensures key == COMMENTS ==> SortedDescending(r, ByNumComments)
    ensures key == POINTS ==> SortedDescending(r, ByPoints)
  {
    match key
    case NONE => list
    case TITLE => SortBy(list, ByTitle)
    case AUTHOR => SortBy(list, ByAuthor)
    case COMMENTS => Reversed(SortBy(list, ByNumComments))
    case POINTS => Reversed(SortBy(list, ByPoints))
  }

  /**
   Hits with equal keys: TITLE and AUTHOR keep them in input order; COMMENTS
   and POINTS, which reverse an ascending sort, list them in reverse input order.
   */
  lemma SortsTies(key: SortKey, list: seq<Hit>, v: SortValue)
    ensures key == TITLE ==> WithKey(Sorts(key, list), ByTitle, v) == WithKey(list, ByTitle, v)
    ensures key == AUTHOR ==> WithKey(Sorts(key, list), ByAuthor, v) == WithKey(list, ByAuthor, v)
    ensures key == COMMENTS ==> WithKey(Sorts(key, list), ByNumComments, v) == Reversed(WithKey(list, ByNumComments, v))
    ensures key == POINTS ==> WithKey(Sorts(key, list), ByPoints, v) == Reversed(WithKey(list, ByPoints, v))
  {
    match key
    case NONE =>
    case TITLE => SortByStable(list, ByTitle, v);
    case AUTHOR => SortByStable(list, ByAuthor, v);
    case COMMENTS =>
      SortByStable(list, ByNumComments, v);
      WithKeyReversed(SortBy(list, ByNumComments), ByNumComments, v);
    case POINTS =>
      SortByStable(list, ByPoints, v);
      WithKeyReversed(SortBy(list, ByPoints), ByPoints, v);
  }

  /** Reversing a list sorted one way sorts it the other way. */
  lemma ReversedSorted(s: seq<Hit>, p: Property)
    ensures Sorted(s, p) ==> SortedDescending(Reversed(s), p)
    ensures SortedDescending(s, p) ==> Sorted(Reversed(s), p)
  {
  }
}
