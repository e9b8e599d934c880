/** Operations on ordered lists of strings (inventories, achievement lists) and the
    relations used to specify them. */
module Sequences {

  /** `a` is obtained from `b` by deleting elements, keeping the rest in order. */
  predicate IsSubsequence<T(==)>(a: seq<T>, b: seq<T>)
    decreases |b|
  {
    if a == [] then true
    else if b == [] then false
    else if a[0] == b[0] then IsSubsequence(a[1..], b[1..])
    else IsSubsequence(a, b[1..])
  }

  /** No element occurs twice. */
  predicate NoDuplicates<T(==)>(s: seq<T>) {
    forall i, j :: 0 <= i < j < |s| ==> s[i] != s[j]
  }

  /** Dropping the head of a list without repeats leaves a list without repeats, and
      without the head. */
  lemma NoDuplicatesTail<T>(s: seq<T>)
    requires s != [] && NoDuplicates(s)
    ensures NoDuplicates(s[1..]) && s[0] !in s[1..]
  {
    var tail := s[1..];
    forall i, j | 0 <= i < j < |tail|
      ensures tail[i] != tail[j]
    {
      assert tail[i] == s[i + 1] && tail[j] == s[j + 1];
    }
    forall i | 0 <= i < |tail|
      ensures tail[i] != s[0]
    {
      assert tail[i] == s[i + 1];
    }
  }

  lemma {:induction false} SubsequenceReflexive<T>(s: seq<T>)
    ensures IsSubsequence(s, s)
  {
    if s != [] {
      SubsequenceReflexive(s[1..]);
    }
  }

  lemma {:induction false} SubsequenceDropHead<T>(a: seq<T>, b: seq<T>)
    requires a != [] && IsSubsequence(a, b)
    ensures IsSubsequence(a[1..], b)
  {
    if a[1..] != [] && b != [] {
      if a[0] == b[0] {
        SubsequenceSkip(a[1..], b);
      } else {
        SubsequenceDropHead(a, b[1..]);
        SubsequenceSkip(a[1..], b);
      }
    }
  }

  /** A subsequence of the tail of `b` is a subsequence of `b`. */
  lemma {:induction false} SubsequenceSkip<T>(a: seq<T>, b: seq<T>)
    requires b != [] && IsSubsequence(a, b[1..])
    ensures IsSubsequence(a, b)
  {
    if a != [] && a[0] == b[0] {
      SubsequenceDropHead(a, b[1..]);
    }
  }

  lemma {:induction false} SubsequenceTransitive<T>(a: seq<T>, b: seq<T>, c: seq<T>)
    requires IsSubsequence(a, b) && IsSubsequence(b, c)
    ensures IsSubsequence(a, c)
    decreases |c|
  {
    if a != [] {
      assert b != [] && c != [];
      if b[0] == c[0] {
        if a[0] == b[0] {
          SubsequenceTransitive(a[1..], b[1..], c[1..]);
        } else {
          SubsequenceTransitive(a, b[1..], c[1..]);
          SubsequenceSkip(a, c);
        }
      } else {
        SubsequenceTransitive(a, b, c[1..]);
        SubsequenceSkip(a, c);
      }
    }
  }

  // ---------------------------------------------------------------------------
  // Remove every occurrence: `s.filter(x => !removed.includes(x))`

  /** Keeps the elements of `s` that are not listed in `removed`, in their original order. */
  function RemoveAll<T(==, !new)>(s: seq<T>, removed: seq<T>): (r: seq<T>)
    ensures IsSubsequence(r, s)
    ensures forall x :: x in r <==> x in s && x !in removed
    ensures forall x :: x !in removed ==> multiset(r)[x] == multiset(s)[x]
    ensures |r| <= |s|
  {
    if s == [] then []
    else
      var rest := RemoveAll(s[1..], removed);
      assert s == [s[0]] + s[1..];
      if s[0] in removed then
        SubsequenceSkip(rest, s);
        rest
      else
        [s[0]] + rest
  }

  /** Appending one element and then a list is appending the list with that element in front. */
  lemma ConcatStep<T>(a: seq<T>, x: T, k: seq<T>, u: seq<T>, w: seq<T>)
    requires u == (a + [x]) + k && w == a + ([x] + k)
    ensures u == w
  {
    assert (a + [x]) + k == a + ([x] + k);
  }

  /** A head that is not removed is kept in front. */
  lemma RemoveAllKeepsHead<T(!new)>(s: seq<T>, removed: seq<T>)
    requires s != [] && s[0] !in removed
    ensures RemoveAll(s, removed) == [s[0]] + RemoveAll(s[1..], removed)
  {
  }

  /** Filtering distributes over concatenation. */
  lemma {:induction false} RemoveAllAppend<T(!new)>(a: seq<T>, b: seq<T>, removed: seq<T>)
    ensures RemoveAll(a + b, removed) == RemoveAll(a, removed) + RemoveAll(b, removed)
  {
    if a == [] {
      assert a + b == b;
    } else {
      assert (a + b)[0] == a[0];
      assert (a + b)[1..] == a[1..] + b;
      RemoveAllAppend(a[1..], b, removed);
    }
  }

  /** Removing nothing leaves the list as it was. */
  lemma {:induction false} RemoveAllNothing<T(!new)>(s: seq<T>)
    ensures RemoveAll(s, []) == s
  {
    if s != [] {
      RemoveAllNothing(s[1..]);
    }
  }

  /** Listing an extra element that does not occur in the list does not change the filter. */
  lemma {:induction false} RemoveAllIgnoresAbsent<T(!new)>(s: seq<T>, removed: seq<T>, x: T)
    requires x !in s
    ensures RemoveAll(s, removed + [x]) == RemoveAll(s, removed)
  {
    if s != [] {
      RemoveAllIgnoresAbsent(s[1..], removed, x);
    }
  }

  // ---------------------------------------------------------------------------
  // Remove the first occurrence: `i = s.indexOf(x); if (i > -1) s.splice(i, 1)`

  /** `s.indexOf(x)`, with `-1` written as `-1` and a hit as its position. */
  function IndexOf<T(==)>(s: seq<T>, x: T): (i: int)
    ensures x !in s <==> i == -1
    ensures x in s ==> 0 <= i < |s| && s[i] == x && x !in s[..i]
  {
    if s == [] then -1
    else if s[0] == x then 0
    else
      var k := IndexOf(s[1..], x);
      if k == -1 then -1
      else
        assert s[..k + 1] == [s[0]] + s[1..][..k];
        k + 1
  }

  /** Deletes the first occurrence of `x`; a list without `x` is returned unchanged. */
  function RemoveFirst<T(==)>(s: seq<T>, x: T): (r: seq<T>)
    ensures x !in s ==> r == s
    ensures x in s ==> exists i :: 0 <= i < |s| && s[i] == x && x !in s[..i] && r == s[..i] + s[i + 1..]
    ensures x in s ==> |r| == |s| - 1
    ensures multiset(r) == multiset(s) - multiset{x}
    ensures IsSubsequence(r, s)
  {
    var i := IndexOf(s, x);
    if i == -1 then
      SubsequenceReflexive(s);
      s
    else
      var r := s[..i] + s[i + 1..];
      assert s == s[..i] + [s[i]] + s[i + 1..];
      assert multiset(s) == multiset(s[..i]) + multiset{x} + multiset(s[i + 1..]);
      RemoveAtIsSubsequence(s, i);
      r
  }

  lemma {:induction false} RemoveAtIsSubsequence<T>(s: seq<T>, i: nat)
    requires i < |s|
    ensures IsSubsequence(s[..i] + s[i + 1..], s)
  {
    if i == 0 {
      assert s[..0] + s[1..] == s[1..];
      SubsequenceReflexive(s[1..]);
      SubsequenceSkip(s[1..], s);
    } else {
      RemoveAtIsSubsequence(s[1..], i - 1);
      var r := s[..i] + s[i + 1..];
      assert r[0] == s[0];
      assert r[1..] == s[1..][..i - 1] + s[1..][i..];
    }
  }

  /** Removes the first occurrence of each listed element in turn, as the cost
      deduction does: a listed element that is not (or no longer) present is skipped. */
  function RemoveEach<T(==)>(s: seq<T>, items: seq<T>): (r: seq<T>)
    ensures multiset(r) == multiset(s) - multiset(items)
    ensures IsSubsequence(r, s)
    ensures |s| - |items| <= |r| <= |s|
    decreases |items|
  {
    if items == [] then
      SubsequenceReflexive(s);
      s
    else
      var once := RemoveFirst(s, items[0]);
      var r := RemoveEach(once, items[1..]);
      RemoveEachStep(s, items, once, r);
      r
  }

  /** One step of `RemoveEach`: removing the first listed item, then the rest. */
  lemma RemoveEachStep<T>(s: seq<T>, items: seq<T>, once: seq<T>, r: seq<T>)
    requires items != []
    requires multiset(once) == multiset(s) - multiset{items[0]} && IsSubsequence(once, s)
    requires |s| - 1 <= |once| <= |s|
    requires multiset(r) == multiset(once) - multiset(items[1..]) && IsSubsequence(r, once)
    requires |once| - |items[1..]| <= |r| <= |once|
    ensures multiset(r) == multiset(s) - multiset(items)
    ensures IsSubsequence(r, s)
    ensures |s| - |items| <= |r| <= |s|
  {
    assert items == [items[0]] + items[1..];
    assert multiset(items) == multiset{items[0]} + multiset(items[1..]);
    MultisetDifferenceStep(multiset(s), items[0], multiset(items[1..]));
    SubsequenceTransitive(r, once, s);
  }

  /** A single listed item: only its first occurrence goes. */
  lemma RemoveEachOne<T>(s: seq<T>, x: T)
    ensures RemoveEach(s, [x]) == RemoveFirst(s, x)
  {
    assert [x][1..] == [];
  }

  /** Removing the items of `a + b` is removing those of `a`, then those of `b`: the items
      are taken in list order, each from what the earlier ones left. */
  lemma {:induction false} RemoveEachAppend<T>(s: seq<T>, a: seq<T>, b: seq<T>)
    ensures RemoveEach(s, a + b) == RemoveEach(RemoveEach(s, a), b)
    decreases |a|
  {
    if a == [] {
      assert a + b == b;
    } else {
      assert (a + b)[0] == a[0];
      assert (a + b)[1..] == a[1..] + b;
      RemoveEachAppend(RemoveFirst(s, a[0]), a[1..], b);
    }
  }

  /** The first copy goes, not a later one. */
  lemma RemoveEachTakesFirstCopy()
    ensures RemoveEach(["a", "b", "a"], ["a"]) == ["b", "a"]
  {
    RemoveEachOne(["a", "b", "a"], "a");
    assert IndexOf(["a", "b", "a"], "a") == 0;
    assert ["a", "b", "a"][1..] == ["b", "a"];
  }

  /** Items that do not occur in the list are skipped, so the list stays as it was. */
  lemma {:induction false} RemoveEachAbsent<T>(s: seq<T>, items: seq<T>)
    requires forall i :: 0 <= i < |items| ==> items[i] !in s
    ensures RemoveEach(s, items) == s
    decreases |items|
  {
    if items != [] {
      RemoveEachAbsent(s, items[1..]);
    }
  }

  lemma MultisetDifferenceStep<T>(m: multiset<T>, x: T, rest: multiset<T>)
    ensures (m - multiset{x}) - rest == m - (multiset{x} + rest)
  {
    forall y
      ensures ((m - multiset{x}) - rest)[y] == (m - (multiset{x} + rest))[y]
    {
    }
  }

  /** The two removal disciplines differ: on a list holding an element twice, removing it
      with `RemoveAll` drops both copies while `RemoveEach` drops only one. */
  lemma RemoveAllVersusRemoveEach<T(!new)>(x: T)
    ensures RemoveAll([x, x], [x]) == []
    ensures RemoveEach([x, x], [x]) == [x]
  {
    assert [x, x][1..] == [x];
    assert [x][1..] == [];
    assert RemoveFirst([x, x], x) == [x];
  }
}
