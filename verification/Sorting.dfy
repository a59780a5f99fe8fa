/** The host's `sorted`: a stable sort by a total preorder. */
module Sorting {

  ghost predicate TotalPreorder<T(!new)>(le: (T, T) -> bool) {
    && (forall a, b :: le(a, b) || le(b, a))
    && (forall a, b, c :: le(a, b) && le(b, c) ==> le(a, c))
  }

  ghost predicate Ordered<T>(le: (T, T) -> bool, s: seq<T>) {
    forall i, j :: 0 <= i < j < |s| ==> le(s[i], s[j])
  }

  /** Places x after every element that may precede it. */
  function Insert<T>(le: (T, T) -> bool, x: T, s: seq<T>): seq<T> {
    if s == [] then [x]
    else
      var n := |s| - 1;
      if le(s[n], x) then s + [x] else Insert(le, x, s[..n]) + [s[n]]
  }

  function Sort<T>(le: (T, T) -> bool, s: seq<T>): seq<T> {
    if s == [] then [] else Insert(le, s[|s| - 1], Sort(le, s[..|s| - 1]))
  }

  lemma {:induction false} InsertKeeps<T>(le: (T, T) -> bool, x: T, s: seq<T>)
    ensures multiset(Insert(le, x, s)) == multiset(s) + multiset{x}
  {
    if s != [] {
      var n := |s| - 1;
      assert s == s[..n] + [s[n]];
      if !le(s[n], x) {
        InsertKeeps(le, x, s[..n]);
      }
    }
  }

  lemma {:induction false} InsertOrders<T(!new)>(le: (T, T) -> bool, x: T, s: seq<T>)
    requires TotalPreorder(le) && Ordered(le, s)
    ensures Ordered(le, Insert(le, x, s))
  {
    if s != [] {
      var n := |s| - 1;
      if le(s[n], x) {
        assert forall i :: 0 <= i < n ==> le(s[i], s[n]) && le(s[n], x);
      } else {
        InsertOrders(le, x, s[..n]);
        InsertKeeps(le, x, s[..n]);
        var inserted := Insert(le, x, s[..n]);
        forall i | 0 <= i < |inserted| ensures le(inserted[i], s[n]) {
          assert inserted[i] in multiset(inserted);
          assert inserted[i] == x || inserted[i] in s[..n];
        }
      }
    }
  }

  /** Sorting permutes and orders. */
  lemma {:induction false} SortCorrect<T(!new)>(le: (T, T) -> bool, s: seq<T>)
    requires TotalPreorder(le)
    ensures multiset(Sort(le, s)) == multiset(s) && |Sort(le, s)| == |s|
    ensures Ordered(le, Sort(le, s))
  {
    if s != [] {
      var n := |s| - 1;
      SortCorrect(le, s[..n]);
      InsertKeeps(le, s[n], Sort(le, s[..n]));
      InsertOrders(le, s[n], Sort(le, s[..n]));
      assert s == s[..n] + [s[n]];
      assert |multiset(Sort(le, s))| == |multiset(s)|;
    }
  }
}
