/**
 * Python's ordering of sequences (str, list and tuple comparison is
 * lexicographic) and the sort that `sorted` performs, for the songs that
 * genres.py sorts before searching.
 */
module Ordering {

  /** le is a total order: total, antisymmetric and transitive. */
  ghost predicate TotalOrder<T(!new)>(le: (T, T) -> bool) {
    && (forall x, y :: le(x, y) || le(y, x))
    && (forall x, y :: le(x, y) && le(y, x) ==> x == y)
    && (forall x, y, z :: le(x, y) && le(y, z) ==> le(x, z))
  }

  /**
   * Lexicographic comparison: the first position where a and b differ
   * decides; a proper prefix comes first.
   */
  function LexLe<T(==)>(le: (T, T) -> bool, a: seq<T>, b: seq<T>): bool {
    a == [] || (b != [] && le(a[0], b[0]) && (a[0] == b[0] ==> LexLe(le, a[1..], b[1..])))
  }

  lemma {:induction false} LexTotal<T(!new)>(le: (T, T) -> bool, a: seq<T>, b: seq<T>)
    requires TotalOrder(le)
    ensures LexLe(le, a, b) || LexLe(le, b, a)
  {
    if a != [] && b != [] && a[0] == b[0] {
      LexTotal(le, a[1..], b[1..]);
    }
  }

  lemma {:induction false} LexAntisymmetric<T(!new)>(le: (T, T) -> bool, a: seq<T>, b: seq<T>)
    requires TotalOrder(le)
    requires LexLe(le, a, b) && LexLe(le, b, a)
    ensures a == b
  {
    if a != [] && b != [] {
      LexAntisymmetric(le, a[1..], b[1..]);
      assert a == [a[0]] + a[1..] && b == [b[0]] + b[1..];
    }
  }

  lemma {:induction false} LexTransitive<T(!new)>(le: (T, T) -> bool, a: seq<T>, b: seq<T>, c: seq<T>)
    requires TotalOrder(le)
    requires LexLe(le, a, b) && LexLe(le, b, c)
    ensures LexLe(le, a, c)
  {
    if a != [] && a[0] == b[0] && b[0] == c[0] {
      LexTransitive(le, a[1..], b[1..], c[1..]);
    }
  }

  /** LexLe as a comparison of sequences. */
  function LexOrder<T(==)>(le: (T, T) -> bool): (seq<T>, seq<T>) -> bool {
    (a: seq<T>, b: seq<T>) => LexLe(le, a, b)
  }

  /** Lexicographic order over a total order is again a total order. */
  lemma LexIsTotalOrder<T(!new)>(le: (T, T) -> bool)
    requires TotalOrder(le)
    ensures TotalOrder(LexOrder(le))
  {
    forall a: seq<T>, b: seq<T> ensures LexLe(le, a, b) || LexLe(le, b, a) {
      LexTotal(le, a, b);
    }
    forall a: seq<T>, b: seq<T> | LexLe(le, a, b) && LexLe(le, b, a) ensures a == b {
      LexAntisymmetric(le, a, b);
    }
    forall a: seq<T>, b: seq<T>, c: seq<T> | LexLe(le, a, b) && LexLe(le, b, c)
      ensures LexLe(le, a, c)
    {
      LexTransitive(le, a, b, c);
    }
  }

  /** Comparing by a key: x comes first when its key does. */
  function By<S, T>(le: (T, T) -> bool, key: S -> T): (S, S) -> bool {
    (x: S, y: S) => le(key(x), key(y))
  }

  /** A total order on keys that tell the elements apart orders the elements totally. */
  lemma ByIsTotalOrder<S(!new), T(!new)>(le: (T, T) -> bool, key: S -> T)
    requires TotalOrder(le)
    requires forall x, y :: key(x) == key(y) ==> x == y
    ensures TotalOrder(By(le, key))
  {
  }

  ghost predicate SortedBy<T>(le: (T, T) -> bool, s: seq<T>) {
    forall i, j :: 0 <= i < j < |s| ==> le(s[i], s[j])
  }

  /** Inserts x before the first element it does not follow. */
  function Insert<T(!new)>(le: (T, T) -> bool, x: T, s: seq<T>): (r: seq<T>)
    requires TotalOrder(le) && SortedBy(le, s)
    ensures SortedBy(le, r)
    ensures multiset(r) == multiset(s) + multiset{x}
  {
    if s == [] then [x]
    else if le(x, s[0]) then [x] + s
    else
      var rest := Insert(le, x, s[1..]);
      assert s == [s[0]] + s[1..];
      HeadPrecedesInsertion(le, x, s, rest);
      [s[0]] + rest
  }

  lemma HeadPrecedesInsertion<T(!new)>(le: (T, T) -> bool, x: T, s: seq<T>, rest: seq<T>)
    requires TotalOrder(le) && SortedBy(le, s) && s != [] && !le(x, s[0])
    requires SortedBy(le, rest) && multiset(rest) == multiset(s[1..]) + multiset{x}
    ensures SortedBy(le, [s[0]] + rest)
  {
    forall k | 0 <= k < |rest| ensures le(s[0], rest[k]) {
      assert rest[k] in multiset(rest);
      if rest[k] != x {
        assert rest[k] in multiset(s[1..]);
        var m :| 0 <= m < |s[1..]| && s[1..][m] == rest[k];
        assert s[m + 1] == rest[k];
      }
    }
  }

  /** `sorted`: the elements of s in ascending order. */
  function Sort<T(!new)>(le: (T, T) -> bool, s: seq<T>): (r: seq<T>)
    requires TotalOrder(le)
    ensures SortedBy(le, r)
    ensures multiset(r) == multiset(s)
  {
    if s == [] then []
    else
      assert s == [s[0]] + s[1..];
      Insert(le, s[0], Sort(le, s[1..]))
  }

  /**
   * Under a total order there is only one ascending arrangement of a
   * multiset, so every correct sort, Python's stable Timsort included,
   * returns what Sort returns.
   */
  lemma {:induction false} SortedIsUnique<T(!new)>(le: (T, T) -> bool, a: seq<T>, b: seq<T>)
    requires TotalOrder(le)
    requires SortedBy(le, a) && SortedBy(le, b)
    requires multiset(a) == multiset(b)
    ensures a == b
  {
    if a != [] {
      assert |b| == |multiset(b)| == |multiset(a)| == |a|;
      HeadIsLeast(le, a, b[0]);
      HeadIsLeast(le, b, a[0]);
      assert a[0] == b[0];
      TailMultiset(a);
      TailMultiset(b);
      SortedTail(le, a);
      SortedTail(le, b);
      SortedIsUnique(le, a[1..], b[1..]);
      assert a == [a[0]] + a[1..] && b == [b[0]] + b[1..];
    }
  }

  lemma SortedTail<T>(le: (T, T) -> bool, s: seq<T>)
    requires SortedBy(le, s) && s != []
    ensures SortedBy(le, s[1..])
  {
    forall i, j | 0 <= i < j < |s| - 1 ensures le(s[1..][i], s[1..][j]) {
      assert s[1..][i] == s[i + 1] && s[1..][j] == s[j + 1];
    }
  }

  lemma HeadIsLeast<T(!new)>(le: (T, T) -> bool, s: seq<T>, y: T)
    requires TotalOrder(le) && SortedBy(le, s) && y in multiset(s)
    ensures le(s[0], y)
  {
    var i :| 0 <= i < |s| && s[i] == y;
  }

  lemma TailMultiset<T>(s: seq<T>)
    requires s != []
    ensures multiset(s[1..]) == multiset(s) - multiset{s[0]}
  {
    assert s == [s[0]] + s[1..];
  }
}
