/** The array operations the source leans on: `filter`, `find`/`findIndex`,
    `slice` and the stable `sort`, over Dafny sequences. */
module Seqs {

  /** `s.filter(p)`: the elements satisfying `p`, in their original order. */
  function Filter<T(!new)>(s: seq<T>, p: T -> bool): (r: seq<T>)
    ensures |r| <= |s|
    ensures forall x :: x in r <==> x in s && p(x)
  {
    if s == [] then [] else (if p(s[0]) then [s[0]] else []) + Filter(s[1..], p)
  }

  /** Filtering distributes over concatenation, so it keeps the relative order of what it keeps. */
  lemma {:induction false} FilterAppend<T(!new)>(a: seq<T>, b: seq<T>, p: T -> bool)
    ensures Filter(a + b, p) == Filter(a, p) + Filter(b, p)
  {
    if a != [] {
      var head := if p(a[0]) then [a[0]] else [];
      assert (a + b)[0] == a[0];
      assert (a + b)[1..] == a[1..] + b;
      FilterAppend(a[1..], b, p);
      assert Filter(a + b, p) == head + Filter(a[1..] + b, p);
      AppendAssociates(head, Filter(a[1..], p), Filter(b, p));
      assert Filter(a, p) == head + Filter(a[1..], p);
    } else {
      assert a + b == b;
    }
  }

  lemma AppendAssociates<T>(x: seq<T>, y: seq<T>, z: seq<T>)
    ensures x + (y + z) == (x + y) + z
  {
  }

  /** `x => p(x) && q(x)`. */
  function Both<T>(p: T -> bool, q: T -> bool): T -> bool
  {
    x => p(x) && q(x)
  }

  /** Filtering by `p` and then by `q` keeps exactly what satisfies both. */
  lemma {:induction false} FilterThenFilter<T(!new)>(s: seq<T>, p: T -> bool, q: T -> bool)
    ensures Filter(Filter(s, p), q) == Filter(s, Both(p, q))
  {
    if s != [] {
      FilterThenFilter(s[1..], p, q);
      var head := if p(s[0]) then [s[0]] else [];
      FilterAppend(head, Filter(s[1..], p), q);
    }
  }

  /** When every element passes, filtering returns the sequence itself. */
  lemma {:induction false} FilterKeepsAll<T(!new)>(s: seq<T>, p: T -> bool)
    requires forall i :: 0 <= i < |s| ==> p(s[i])
    ensures Filter(s, p) == s
  {
    if s != [] {
      FilterKeepsAll(s[1..], p);
    }
  }

  /** Two tests that agree on every element keep the same elements. */
  lemma {:induction false} FilterCongruent<T(!new)>(s: seq<T>, p: T -> bool, q: T -> bool)
    requires forall i :: 0 <= i < |s| ==> p(s[i]) == q(s[i])
    ensures Filter(s, p) == Filter(s, q)
  {
    if s != [] {
      assert forall i :: 0 <= i < |s[1..]| ==> s[1..][i] == s[i + 1];
      FilterCongruent(s[1..], p, q);
    }
  }

  /** Count of an appended element. */
  lemma CountAppend<T(!new)>(s: seq<T>, x: T, p: T -> bool)
    ensures Count(s + [x], p) == Count(s, p) + (if p(x) then 1 else 0)
  {
    FilterAppend(s, [x], p);
    assert [x][1..] == [];
  }

  /** Filtering twice by the same test is filtering once. */
  lemma {:induction false} FilterIdempotent<T(!new)>(s: seq<T>, p: T -> bool)
    ensures Filter(Filter(s, p), p) == Filter(s, p)
  {
    if s != [] {
      FilterIdempotent(s[1..], p);
      var head := if p(s[0]) then [s[0]] else [];
      FilterAppend(head, Filter(s[1..], p), p);
      assert Filter(head, p) == head by {
        if head != [] {
          assert head[1..] == [];
        }
      }
    }
  }

  /** Reordering the elements does not change how many pass a test. */
  lemma {:induction false} FilterPermutation<T(!new)>(a: seq<T>, b: seq<T>, p: T -> bool)
    requires multiset(a) == multiset(b)
    ensures |Filter(a, p)| == |Filter(b, p)|
    decreases |a|
  {
    if a == [] {
      assert |multiset(b)| == 0;
    } else {
      var x, rest := a[|a| - 1], a[..|a| - 1];
      assert a == rest + [x];
      assert x in multiset(b);
      var k :| 0 <= k < |b| && b[k] == x;
      var left, right := b[..k], b[k + 1..];
      RemoveAt(rest, x, b, k);
      FilterPermutation(rest, left + right, p);
      FilterAppend(rest, [x], p);
      FilterAppend(left + [x], right, p);
      FilterAppend(left, [x], p);
      FilterAppend(left, right, p);
    }
  }

  /** Helper: taking the same element out of two permutations leaves permutations. */
  lemma RemoveAt<T>(rest: seq<T>, x: T, b: seq<T>, k: nat)
    requires k < |b| && b[k] == x && multiset(rest + [x]) == multiset(b)
    ensures b == b[..k] + [x] + b[k + 1..]
    ensures multiset(rest) == multiset(b[..k] + b[k + 1..])
  {
    var left, right := b[..k], b[k + 1..];
    assert b == left + [x] + right;
    calc {
      multiset(left + right) + multiset{x};
      multiset(left) + multiset(right) + multiset([x]);
      multiset(left + [x] + right);
      multiset(rest + [x]);
      multiset(rest) + multiset{x};
    }
    assert multiset(left + right) == multiset(left + right) + multiset{x} - multiset{x};
    assert multiset(rest) == multiset(rest) + multiset{x} - multiset{x};
  }

  /** Helper: nothing passes, so nothing is kept. */
  lemma NoneMatch<T(!new)>(s: seq<T>, p: T -> bool)
    requires forall i :: 0 <= i < |s| ==> !p(s[i])
    ensures Filter(s, p) == []
  {
  }

  /** The number of elements satisfying `p`. */
  function Count<T(!new)>(s: seq<T>, p: T -> bool): (n: nat)
    ensures n <= |s|
  {
    |Filter(s, p)|
  }

  /** Three mutually exclusive tests never count more elements than there are. */
  lemma {:induction false} CountExclusive<T(!new)>(s: seq<T>, p: T -> bool, q: T -> bool, r: T -> bool)
    requires forall x :: !(p(x) && q(x)) && !(p(x) && r(x)) && !(q(x) && r(x))
    ensures Count(s, p) + Count(s, q) + Count(s, r) <= |s|
  {
    if s != [] {
      CountExclusive(s[1..], p, q, r);
    }
  }

  /** `s.findIndex(p)`: the first index whose element satisfies `p`, or -1. */
  function FindIndex<T>(s: seq<T>, p: T -> bool): (i: int)
    ensures -1 <= i < |s|
    ensures i == -1 <==> forall k :: 0 <= k < |s| ==> !p(s[k])
    ensures 0 <= i ==> p(s[i]) && forall k :: 0 <= k < i ==> !p(s[k])
  {
    if s == [] then -1
    else if p(s[0]) then 0
    else
      var j := FindIndex(s[1..], p);
      if j == -1 then -1 else j + 1
  }

  /** `slice` turns a relative position into an index in `[0, len]`. */
  function ClampIndex(i: int, len: nat): (k: nat)
    ensures k <= len
    ensures 0 <= i <= len ==> k == i
  {
    if i < 0 then (if len + i < 0 then 0 else len + i)
    else if i > len then len
    else i
  }

  /** `s.slice(start, end)`, negative positions counting from the end. */
  function Slice<T>(s: seq<T>, start: int, end: int): (r: seq<T>)
    ensures 0 <= start <= end ==> |r| <= end - start
    ensures 0 <= start ==> forall i :: 0 <= i < |r| ==> start + i < |s| && r[i] == s[start + i]
    ensures 0 <= start <= |s| && start <= end ==> |r| == (if end <= |s| then end else |s|) - start
  {
    var from := ClampIndex(start, |s|);
    var to := ClampIndex(end, |s|);
    if from <= to then s[from..to] else []
  }

  /** `slice(0, end)` is a prefix. */
  lemma SliceFromStart<T>(s: seq<T>, end: int)
    ensures Slice(s, 0, end) == s[..ClampIndex(end, |s|)]
  {
  }

  /** A prefix keeps a subset of the elements and any order the whole had. */
  lemma PrefixOf<T>(s: seq<T>, k: nat, before: (T, T) -> bool)
    requires k <= |s|
    ensures multiset(s[..k]) <= multiset(s)
    ensures SortedBy(s, before) ==> SortedBy(s[..k], before)
  {
    assert s == s[..k] + s[k..];
  }

  /** In a sorted sequence, nothing left out of a prefix is required to precede
      something the prefix kept. */
  lemma SortedPrefixFirst<T>(s: seq<T>, k: nat, before: (T, T) -> bool)
    requires k <= |s|
    ensures SortedBy(s, before) ==>
      forall x, y :: x in multiset(s[..k]) && y in multiset(s) - multiset(s[..k]) ==> !before(y, x)
  {
    assert s == s[..k] + s[k..];
    assert multiset(s) - multiset(s[..k]) == multiset(s[k..]);
    forall x, y | SortedBy(s, before) && x in multiset(s[..k]) && y in multiset(s) - multiset(s[..k])
      ensures !before(y, x)
    {
      assert x in s[..k] && y in s[k..];
      var i :| 0 <= i < k && s[..k][i] == x;
      var j :| 0 <= j < |s| - k && s[k..][j] == y;
      assert s[i] == x && s[k + j] == y;
    }
  }

  /** The first element `filter` keeps is the one `findIndex` finds. */
  lemma {:induction false} FilterHead<T(!new)>(s: seq<T>, p: T -> bool)
    ensures Filter(s, p) == [] <==> FindIndex(s, p) == -1
    ensures Filter(s, p) != [] ==> Filter(s, p)[0] == s[FindIndex(s, p)]
  {
    if s != [] && !p(s[0]) {
      FilterHead(s[1..], p);
    }
  }

  /** Inserts `x` after every element it does not have to precede: the step of a stable sort. */
  function Insert<T>(s: seq<T>, x: T, before: (T, T) -> bool): (r: seq<T>)
    ensures |r| == |s| + 1
    ensures multiset(r) == multiset(s) + multiset{x}
  {
    if s == [] || !before(x, s[|s| - 1]) then s + [x]
    else
      assert s == s[..|s| - 1] + [s[|s| - 1]];
      Insert(s[..|s| - 1], x, before) + [s[|s| - 1]]
  }

  /** A stable sort: `before(a, b)` holds when the comparator puts `a` strictly first. */
  function SortBy<T>(s: seq<T>, before: (T, T) -> bool): (r: seq<T>)
    ensures |r| == |s|
    ensures multiset(r) == multiset(s)
  {
    if s == [] then []
    else
      assert s == s[..|s| - 1] + [s[|s| - 1]];
      Insert(SortBy(s[..|s| - 1], before), s[|s| - 1], before)
  }

  /** No element is required to precede an element placed earlier. */
  ghost predicate SortedBy<T>(s: seq<T>, before: (T, T) -> bool)
  {
    forall i, j :: 0 <= i < j < |s| ==> !before(s[j], s[i])
  }

  /** What a consistent comparator gives on the elements of `dom`: asymmetric and
      negatively transitive. */
  ghost predicate StrictWeakOrderOn<T(!new)>(dom: set<T>, before: (T, T) -> bool)
  {
    && (forall x, y :: x in dom && y in dom && before(x, y) ==> !before(y, x))
    && (forall x, y, z :: x in dom && y in dom && z in dom && before(x, z) ==> before(x, y) || before(y, z))
  }

  ghost predicate Within<T>(s: seq<T>, dom: set<T>)
  {
    forall i :: 0 <= i < |s| ==> s[i] in dom
  }

  lemma {:induction false} InsertSorted<T(!new)>(s: seq<T>, x: T, before: (T, T) -> bool, dom: set<T>)
    requires StrictWeakOrderOn(dom, before) && Within(s, dom) && x in dom && SortedBy(s, before)
    ensures SortedBy(Insert(s, x, before), before)
  {
    if s == [] || !before(x, s[|s| - 1]) {
      var r := s + [x];
      forall i, j | 0 <= i < j < |r| ensures !before(r[j], r[i]) {
        if j == |s| && i < |s| - 1 {
          var last, si := s[|s| - 1], s[i];
          assert last in dom && si in dom;
          assert !before(last, si);
          assert before(x, si) ==> before(x, last) || before(last, si);
        }
      }
    } else {
      var init, last := s[..|s| - 1], s[|s| - 1];
      assert Within(init, dom);
      InsertSorted(init, x, before, dom);
      var left := Insert(init, x, before);
      var r := left + [last];
      forall i, j | 0 <= i < j < |r| ensures !before(r[j], r[i]) {
        if j == |left| {
          assert r[i] in multiset(left);
          assert r[i] in multiset(init) || r[i] == x;
          if r[i] != x {
            var k :| 0 <= k < |init| && init[k] == r[i];
            assert s[k] == r[i] && s[|s| - 1] == last;
          }
        }
      }
    }
  }

  /** Sorting keeps every element, so it stays inside any set holding them all. */
  lemma SortByWithin<T>(s: seq<T>, before: (T, T) -> bool, dom: set<T>)
    requires Within(s, dom)
    ensures Within(SortBy(s, before), dom)
  {
    var r := SortBy(s, before);
    forall i | 0 <= i < |r| ensures r[i] in dom {
      assert r[i] in multiset(s);
    }
  }

  /** With a comparator consistent on the elements, the result is ordered. */
  lemma {:induction false} SortBySorted<T(!new)>(s: seq<T>, before: (T, T) -> bool, dom: set<T>)
    requires StrictWeakOrderOn(dom, before) && Within(s, dom)
    ensures SortedBy(SortBy(s, before), before)
  {
    if s != [] {
      var init := s[..|s| - 1];
      assert Within(init, dom);
      SortBySorted(init, before, dom);
      SortByWithin(init, before, dom);
      InsertSorted(SortBy(init, before), s[|s| - 1], before, dom);
    }
  }

  /** Ordering by an integer key, smallest first, is a consistent comparator. */
  lemma IntKeyOrder<T(!new)>(dom: set<T>, key: T -> int)
    ensures StrictWeakOrderOn(dom, (a: T, b: T) => key(a) < key(b))
  {
  }
}
