/** Stable sorting by a real key: the library `sorted` the risk and sampling code calls. */
module Sorting {

  ghost predicate SortedBy<T(!new)>(s: seq<T>, key: T -> real) {
    forall i, j | 0 <= i < j < |s| :: key(s[i]) <= key(s[j])
  }

  function InsertBy<T>(x: T, s: seq<T>, key: T -> real): seq<T> {
    if s == [] || key(x) <= key(s[0]) then [x] + s else [s[0]] + InsertBy(x, s[1..], key)
  }

  function SortBy<T>(s: seq<T>, key: T -> real): seq<T> {
    if s == [] then [] else InsertBy(s[0], SortBy(s[1..], key), key)
  }

  lemma {:induction false} InsertByKeeps<T>(x: T, s: seq<T>, key: T -> real)
    ensures multiset(InsertBy(x, s, key)) == multiset{x} + multiset(s)
  {
    if !(s == [] || key(x) <= key(s[0])) {
      InsertByKeeps(x, s[1..], key);
      assert s == [s[0]] + s[1..];
    }
  }

  lemma {:induction false} InsertBySorted<T(!new)>(x: T, s: seq<T>, key: T -> real)
    requires SortedBy(s, key)
    ensures SortedBy(InsertBy(x, s, key), key)
  {
    if !(s == [] || key(x) <= key(s[0])) {
      var rest := InsertBy(x, s[1..], key);
      InsertBySorted(x, s[1..], key);
      InsertByKeeps(x, s[1..], key);
      forall i | 0 <= i < |rest| ensures key(s[0]) <= key(rest[i]) {
        assert rest[i] in multiset(rest);
        assert rest[i] == x || rest[i] in s[1..];
      }
    }
  }

  lemma {:induction false} SortByProperties<T(!new)>(s: seq<T>, key: T -> real)
    ensures SortedBy(SortBy(s, key), key)
    ensures multiset(SortBy(s, key)) == multiset(s)
    ensures |SortBy(s, key)| == |s|
  {
    if s != [] {
      SortByProperties(s[1..], key);
      InsertBySorted(s[0], SortBy(s[1..], key), key);
      InsertByKeeps(s[0], SortBy(s[1..], key), key);
      assert s == [s[0]] + s[1..];
      assert |multiset(SortBy(s, key))| == |multiset(s)|;
    }
  }
}
