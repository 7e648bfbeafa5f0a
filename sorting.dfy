/** The display order of the page: a copy of the list, sorted descending
    by the selected key with a stable sort. */
module SortView {
  import opened TodoList

  /** The two choices of the sort selector. */
  datatype SortOption = ByPriority | ByCreatedAt

  /** The key the comparator reads. */
  function Key(sortBy: SortOption, t: Todo): int {
    match sortBy
    case ByPriority => t.priority
    case ByCreatedAt => t.createdAt
  }

  /** The page's comparator: negative when `a` belongs before `b`,
      zero when their keys tie, positive when `b` belongs before `a`. */
  function Compare(sortBy: SortOption, a: Todo, b: Todo): (c: int)
    ensures c <= 0 <==> Key(sortBy, a) >= Key(sortBy, b)
    ensures c == 0 <==> Key(sortBy, a) == Key(sortBy, b)
  {
    Key(sortBy, b) - Key(sortBy, a)
  }

  /** Keys are non-increasing from left to right. */
  predicate Sorted(sortBy: SortOption, s: seq<Todo>) {
    forall i, j :: 0 <= i < j < |s| ==> Key(sortBy, s[i]) >= Key(sortBy, s[j])
  }

  /** The todos whose key is `k`, in the order of `s`. A sort is stable
      when it leaves this subsequence the same for every key. */
  function WithKey(sortBy: SortOption, s: seq<Todo>, k: int): (r: seq<Todo>)
    ensures |r| <= |s|
  {
    if s == [] then []
    else (if Key(sortBy, s[0]) == k then [s[0]] else []) + WithKey(sortBy, s[1..], k)
  }

  /** A todo is in the subsequence for `k` exactly when it is in `s` and
      has key `k`. */
  lemma {:induction false} WithKeyMembers(sortBy: SortOption, s: seq<Todo>, k: int, t: Todo)
    ensures t in WithKey(sortBy, s, k) <==> t in s && Key(sortBy, t) == k
  {
    if s != [] {
      WithKeyMembers(sortBy, s[1..], k, t);
      assert s == [s[0]] + s[1..];
    }
  }

  /** `x` placed in `t` before the first todo the comparator does not
      put ahead of it, that is before every todo of equal key. */
  function Insert(sortBy: SortOption, x: Todo, t: seq<Todo>): (r: seq<Todo>)
    ensures multiset(r) == multiset(t) + multiset{x}
  {
    if t == [] || Compare(sortBy, x, t[0]) <= 0 then [x] + t
    else
      assert t == [t[0]] + t[1..];
      [t[0]] + Insert(sortBy, x, t[1..])
  }

  /** The first todo of a sorted list has the largest key. */
  lemma HeadIsLargest(sortBy: SortOption, s: seq<Todo>, t: Todo)
    requires Sorted(sortBy, s) && t in s
    ensures Key(sortBy, t) <= Key(sortBy, s[0])
  {
  }

  /** Inserting into a sorted list gives a sorted list. */
  lemma {:induction false} InsertSorted(sortBy: SortOption, x: Todo, t: seq<Todo>)
    requires Sorted(sortBy, t)
    ensures Sorted(sortBy, Insert(sortBy, x, t))
  {
    if t != [] && Compare(sortBy, x, t[0]) > 0 {
      var rest := Insert(sortBy, x, t[1..]);
      InsertSorted(sortBy, x, t[1..]);
      var r := [t[0]] + rest;
      forall j | 0 < j < |r| ensures Key(sortBy, r[0]) >= Key(sortBy, r[j]) {
        assert r[j] == rest[j - 1];
        assert r[j] in multiset(t[1..]) + multiset{x};
        if r[j] != x {
          assert r[j] in t[1..];
          HeadIsLargest(sortBy, t, r[j]);
        }
      }
    }
  }

  /** Insertion sort: the sorted order of `s` under the selected key. */
  function SortDesc(sortBy: SortOption, s: seq<Todo>): (r: seq<Todo>)
    ensures multiset(r) == multiset(s)
    ensures Sorted(sortBy, r)
  {
    if s == [] then []
    else
      assert s == [s[0]] + s[1..];
      InsertSorted(sortBy, s[0], SortDesc(sortBy, s[1..]));
      Insert(sortBy, s[0], SortDesc(sortBy, s[1..]))
  }

  /** Inserting `x` puts it first among the todos that share its key. */
  lemma {:induction false} InsertWithKey(sortBy: SortOption, x: Todo, t: seq<Todo>, k: int)
    ensures WithKey(sortBy, Insert(sortBy, x, t), k)
      == (if Key(sortBy, x) == k then [x] else []) + WithKey(sortBy, t, k)
  {
    if t == [] || Compare(sortBy, x, t[0]) <= 0 {
      WithKeyCons(sortBy, [x] + t, k);
      assert ([x] + t)[0] == x && ([x] + t)[1..] == t;
    } else {
      var rest := Insert(sortBy, x, t[1..]);
      InsertWithKey(sortBy, x, t[1..], k);
      InsertPastHead(sortBy, x, t, k, rest);
    }
  }

  /** One step of `InsertWithKey`: `x` passes a head of larger key. */
  lemma InsertPastHead(sortBy: SortOption, x: Todo, t: seq<Todo>, k: int, rest: seq<Todo>)
    requires t != [] && Key(sortBy, x) < Key(sortBy, t[0])
    requires WithKey(sortBy, rest, k) == (if Key(sortBy, x) == k then [x] else []) + WithKey(sortBy, t[1..], k)
    ensures WithKey(sortBy, [t[0]] + rest, k)
      == (if Key(sortBy, x) == k then [x] else []) + WithKey(sortBy, t, k)
  {
    WithKeyPrepend(sortBy, t[0], rest, k);
    WithKeyCons(sortBy, t, k);
    if Key(sortBy, x) == k {
      PassOtherKey(sortBy, t[0], [x], rest, WithKey(sortBy, t[1..], k), k);
    } else {
      PassNothing(sortBy, t[0], rest, WithKey(sortBy, t[1..], k), k);
    }
  }

  /** A proof step of `InsertPastHead` only, kept apart so that its sequence
      rewriting is checked in a small context: the case where `x` has key `k`,
      so the head it passes does not. */
  lemma PassOtherKey(sortBy: SortOption, h: Todo, mine: seq<Todo>, rest: seq<Todo>, tail: seq<Todo>, k: int)
    requires Key(sortBy, h) != k
    requires WithKey(sortBy, rest, k) == mine + tail
    requires WithKey(sortBy, [h] + rest, k) == [] + WithKey(sortBy, rest, k)
    ensures WithKey(sortBy, [h] + rest, k) == mine + ([] + tail)
  {
    assert [] + WithKey(sortBy, rest, k) == WithKey(sortBy, rest, k);
    assert [] + tail == tail;
  }

  /** A proof step of `InsertPastHead` only, kept apart for the same reason:
      the case where `x` does not have key `k`. */
  lemma PassNothing(sortBy: SortOption, h: Todo, rest: seq<Todo>, tail: seq<Todo>, k: int)
    requires WithKey(sortBy, rest, k) == [] + tail
    requires WithKey(sortBy, [h] + rest, k) == (if Key(sortBy, h) == k then [h] else []) + WithKey(sortBy, rest, k)
    ensures WithKey(sortBy, [h] + rest, k) == [] + ((if Key(sortBy, h) == k then [h] else []) + tail)
  {
    assert [] + tail == tail;
  }

  /** The sort is stable: for every key, the todos with that key appear in
      the same relative order as in the input. */
  lemma {:induction false} SortDescStable(sortBy: SortOption, s: seq<Todo>, k: int)
    ensures WithKey(sortBy, SortDesc(sortBy, s), k) == WithKey(sortBy, s, k)
  {
    if s != [] {
      SortDescStable(sortBy, s[1..], k);
      InsertWithKey(sortBy, s[0], SortDesc(sortBy, s[1..]), k);
    }
  }

  /** Unfolding `WithKey` once at the head of a non-empty list. */
  lemma WithKeyCons(sortBy: SortOption, s: seq<Todo>, k: int)
    requires s != []
    ensures WithKey(sortBy, s, k) == (if Key(sortBy, s[0]) == k then [s[0]] else []) + WithKey(sortBy, s[1..], k)
  {
  }

  /** Unfolding `WithKey` once for a todo put in front of a list. */
  lemma WithKeyPrepend(sortBy: SortOption, h: Todo, s: seq<Todo>, k: int)
    ensures WithKey(sortBy, [h] + s, k) == (if Key(sortBy, h) == k then [h] else []) + WithKey(sortBy, s, k)
  {
    assert ([h] + s)[0] == h && ([h] + s)[1..] == s;
  }

  /** Two lists that agree on the subsequence of every key have heads of
      the same key when both are sorted, and are both empty or both not. */
  lemma SameHeads(sortBy: SortOption, a: seq<Todo>, b: seq<Todo>)
    requires Sorted(sortBy, a) && Sorted(sortBy, b)
    requires forall k :: WithKey(sortBy, a, k) == WithKey(sortBy, b, k)
    ensures a == [] <==> b == []
    ensures a != [] ==> a[0] == b[0]
  {
    if b != [] {
      var kb := Key(sortBy, b[0]);
      WithKeyCons(sortBy, b, kb);
      assert WithKey(sortBy, a, kb) == WithKey(sortBy, b, kb);
      assert b[0] in WithKey(sortBy, a, kb);
      WithKeyMembers(sortBy, a, kb, b[0]);
    }
    if a != [] {
      var ka := Key(sortBy, a[0]);
      WithKeyCons(sortBy, a, ka);
      assert WithKey(sortBy, a, ka) == WithKey(sortBy, b, ka);
      assert a[0] in WithKey(sortBy, b, ka);
      WithKeyMembers(sortBy, b, ka, a[0]);
      if b != [] {
        HeadIsLargest(sortBy, a, b[0]);
        HeadIsLargest(sortBy, b, a[0]);
        assert Key(sortBy, b[0]) == ka;
        WithKeyCons(sortBy, b, ka);
        assert WithKey(sortBy, a, ka)[0] == a[0];
        assert WithKey(sortBy, b, ka)[0] == b[0];
      }
    }
  }

  /** Two sorted lists that agree on the subsequence of every key are
      equal. So a stable sort with this comparator has only one possible
      result, and `SortDesc` is it. */
  lemma {:induction false} StableSortUnique(sortBy: SortOption, a: seq<Todo>, b: seq<Todo>)
    requires Sorted(sortBy, a) && Sorted(sortBy, b)
    requires forall k :: WithKey(sortBy, a, k) == WithKey(sortBy, b, k)
    ensures a == b
    decreases |a|
  {
    SameHeads(sortBy, a, b);
    if a != [] {
      forall k ensures WithKey(sortBy, a[1..], k) == WithKey(sortBy, b[1..], k) {
        WithKeyCons(sortBy, a, k);
        WithKeyCons(sortBy, b, k);
        var head := if Key(sortBy, a[0]) == k then [a[0]] else [];
        assert WithKey(sortBy, a, k) == WithKey(sortBy, b, k);
        assert WithKey(sortBy, a[1..], k) == WithKey(sortBy, a, k)[|head|..];
        assert WithKey(sortBy, b[1..], k) == WithKey(sortBy, b, k)[|head|..];
      }
      StableSortUnique(sortBy, a[1..], b[1..]);
      assert a == [a[0]] + a[1..] && b == [b[0]] + b[1..];
    }
  }

  /** Any stable sort of `s` with this comparator returns `SortDesc(sortBy, s)`. */
  lemma StableSortIsSortDesc(sortBy: SortOption, s: seq<Todo>, r: seq<Todo>)
    requires Sorted(sortBy, r)
    requires forall k :: WithKey(sortBy, r, k) == WithKey(sortBy, s, k)
    ensures r == SortDesc(sortBy, s)
  {
    forall k ensures WithKey(sortBy, r, k) == WithKey(sortBy, SortDesc(sortBy, s), k) {
      SortDescStable(sortBy, s, k);
    }
    StableSortUnique(sortBy, r, SortDesc(sortBy, s));
  }

  /** A list already in order is left as it is. */
  lemma SortDescOfSorted(sortBy: SortOption, s: seq<Todo>)
    requires Sorted(sortBy, s)
    ensures SortDesc(sortBy, s) == s
  {
    StableSortIsSortDesc(sortBy, s, s);
  }

  /** Sorting twice is sorting once. */
  lemma SortDescIdempotent(sortBy: SortOption, s: seq<Todo>)
    ensures SortDesc(sortBy, SortDesc(sortBy, s)) == SortDesc(sortBy, s)
  {
    SortDescOfSorted(sortBy, SortDesc(sortBy, s));
  }

  /** Corollary of `SortDesc`'s `Sorted` ensures, stated position by
      position: at any two positions of the sorted order, the earlier todo's
      key is at least the later one's. */
  lemma SortDescOrder(sortBy: SortOption, s: seq<Todo>, i: nat, j: nat)
    requires i < j < |SortDesc(sortBy, s)|
    ensures Key(sortBy, SortDesc(sortBy, s)[i]) >= Key(sortBy, SortDesc(sortBy, s)[j])
  {
  }

  /** `s` back to front. */
  function Reversed(s: seq<Todo>): (r: seq<Todo>)
    ensures |r| == |s|
    ensures forall i :: 0 <= i < |s| ==> r[i] == s[|s| - 1 - i]
  {
    if s == [] then [] else Reversed(s[1..]) + [s[0]]
  }

  /** A todo whose key is below every key of `t` is inserted last. */
  lemma {:induction false} InsertBelowAll(sortBy: SortOption, x: Todo, t: seq<Todo>)
    requires forall i :: 0 <= i < |t| ==> Key(sortBy, x) < Key(sortBy, t[i])
    ensures Insert(sortBy, x, t) == t + [x]
  {
    if t != [] {
      InsertBelowAll(sortBy, x, t[1..]);
      assert t == [t[0]] + t[1..];
    }
  }

  /** A list whose keys strictly increase is shown back to front: for
      creation times, the most recently created todo first. */
  lemma {:induction false} SortDescOfIncreasing(sortBy: SortOption, s: seq<Todo>)
    requires forall i, j :: 0 <= i < j < |s| ==> Key(sortBy, s[i]) < Key(sortBy, s[j])
    ensures SortDesc(sortBy, s) == Reversed(s)
  {
    if s != [] {
      SortDescOfIncreasing(sortBy, s[1..]);
      InsertBelowAll(sortBy, s[0], Reversed(s[1..]));
    }
  }
}
