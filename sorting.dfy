/** The ordering the query engine applies for `ORDER BY k1, k2, k3`:
    rows compared lexicographically on a triple of integer keys. Insertion
    sort stands for the engine's sort; its result is sorted by the key and a
    permutation of its input. */
module Sorting {

  type Key = (int, int, int)

  /** Lexicographic `<=` on key triples. */
  predicate KeyLe(a: Key, b: Key) {
    a.0 < b.0 || (a.0 == b.0 && (a.1 < b.1 || (a.1 == b.1 && a.2 <= b.2)))
  }

  predicate SortedBy<T>(s: seq<T>, key: T -> Key) {
    forall i, j :: 0 <= i < j < |s| ==> KeyLe(key(s[i]), key(s[j]))
  }

  function Insert<T>(x: T, s: seq<T>, key: T -> Key): (r: seq<T>)
    requires SortedBy(s, key)
    ensures SortedBy(r, key)
    ensures multiset(r) == multiset(s) + multiset{x}
  {
    if s == [] then [x]
    else if KeyLe(key(x), key(s[0])) then [x] + s
    else
      var rest := Insert(x, s[1..], key);
      InsertHead(s[0], x, s[1..], rest, key);
      assert s == [s[0]] + s[1..];
      [s[0]] + rest
  }

  /** Putting `h` in front of `rest` keeps it sorted when `h` is no greater
      than anything `rest` is made of. */
  lemma InsertHead<T>(h: T, x: T, tail: seq<T>, rest: seq<T>, key: T -> Key)
    requires SortedBy(rest, key)
    requires multiset(rest) == multiset(tail) + multiset{x}
    requires KeyLe(key(h), key(x))
    requires forall k :: 0 <= k < |tail| ==> KeyLe(key(h), key(tail[k]))
    ensures SortedBy([h] + rest, key)
  {
    forall k | 0 <= k < |rest| ensures KeyLe(key(h), key(rest[k])) {
      assert rest[k] in multiset(rest);
      if rest[k] != x {
        assert rest[k] in multiset(tail);
        var m :| 0 <= m < |tail| && tail[m] == rest[k];
      }
    }
  }

  function SortBy<T>(s: seq<T>, key: T -> Key): (r: seq<T>)
    ensures SortedBy(r, key)
    ensures multiset(r) == multiset(s)
  {
    if s == [] then []
    else
      assert s == [s[0]] + s[1..];
      Insert(s[0], SortBy(s[1..], key), key)
  }

  lemma SortedMembers<T>(s: seq<T>, key: T -> Key, x: T)
    ensures x in SortBy(s, key) <==> x in s
  {
    assert x in SortBy(s, key) <==> x in multiset(SortBy(s, key));
    assert x in s <==> x in multiset(s);
  }

  /** A sorted sequence of two elements with distinct keys lists the smaller first. */
  lemma SortedPair<T>(l: seq<T>, a: T, b: T, key: T -> Key)
    requires multiset(l) == multiset{a, b} && SortedBy(l, key) && !KeyLe(key(b), key(a))
    ensures l == [a, b]
  {
    assert |l| == |multiset(l)| == 2;
    assert l == [l[0], l[1]];
    assert multiset{l[0], l[1]} == multiset{a, b};
    assert KeyLe(key(l[0]), key(l[1]));
  }
}
