/** List operations shared by the selection and filter state transitions: the `filter`, spread and
    `new Set(...)` idioms the components use, with the facts about them the rest of the model needs. */
module Lists {

  /** No element occurs twice. */
  predicate NoDup<T(==,!new)>(s: seq<T>) {
    forall i, j :: 0 <= i < j < |s| ==> s[i] != s[j]
  }

  /** `a` is `b` with some elements left out, the rest in their original order. */
  predicate IsSubsequence<T(==,!new)>(a: seq<T>, b: seq<T>)
    decreases |b|
  {
    if a == [] then true
    else if b == [] then false
    else (a[0] == b[0] && IsSubsequence(a[1..], b[1..])) || IsSubsequence(a, b[1..])
  }

  lemma {:induction false} SubsequenceReflexive<T(!new)>(s: seq<T>)
    ensures IsSubsequence(s, s)
  {
    if s != [] {
      SubsequenceReflexive(s[1..]);
    }
  }

  /** `s.filter(y => y !== x)`: every occurrence of `x` removed, everything else kept in order. */
  function RemoveAll<T(==,!new)>(s: seq<T>, x: T): (r: seq<T>)
    ensures x !in r
    ensures forall y :: y in r <==> y in s && y != x
    ensures IsSubsequence(r, s)
    ensures x !in s ==> r == s
    ensures multiset(r)[x] == 0 && forall y :: y != x ==> multiset(r)[y] == multiset(s)[y]
  {
    if s == [] then []
    else if s[0] == x then
      var t := RemoveAll(s[1..], x);
      assert s == [s[0]] + s[1..];
      t
    else
      var t := RemoveAll(s[1..], x);
      assert s == [s[0]] + s[1..];
      assert ([s[0]] + t)[1..] == t;
      [s[0]] + t
  }

  /** Removing distributes over concatenation, so the filter works element by element. */
  lemma {:induction false} RemoveAllAppend<T(!new)>(a: seq<T>, b: seq<T>, x: T)
    ensures RemoveAll(a + b, x) == RemoveAll(a, x) + RemoveAll(b, x)
  {
    if a == [] {
      assert a + b == b;
    } else {
      assert (a + b)[1..] == a[1..] + b;
      RemoveAllAppend(a[1..], b, x);
    }
  }

  lemma {:induction false} RemoveAllNoDup<T(!new)>(s: seq<T>, x: T)
    requires NoDup(s)
    ensures NoDup(RemoveAll(s, x))
  {
    if s != [] {
      RemoveAllNoDup(s[1..], x);
      if s[0] != x {
        var t := RemoveAll(s[1..], x);
        assert s[0] !in s[1..];
        assert s[0] !in t;
        forall i, j | 0 <= i < j < |[s[0]] + t| ensures ([s[0]] + t)[i] != ([s[0]] + t)[j] {
          if i == 0 {
            assert ([s[0]] + t)[j] == t[j - 1];
          }
        }
      }
    }
  }

  /** `s.filter(y => !excluded.includes(y))`. */
  function Without<T(==,!new)>(s: seq<T>, excluded: seq<T>): (r: seq<T>)
    ensures forall y :: y in r <==> y in s && y !in excluded
    ensures IsSubsequence(r, s)
    ensures forall y :: multiset(r)[y] == if y in excluded then 0 else multiset(s)[y]
    ensures (forall y :: y in s ==> y in excluded) ==> r == []
  {
    if s == [] then []
    else if s[0] in excluded then
      var t := Without(s[1..], excluded);
      assert s == [s[0]] + s[1..];
      t
    else
      var t := Without(s[1..], excluded);
      assert s == [s[0]] + s[1..];
      assert ([s[0]] + t)[1..] == t;
      [s[0]] + t
  }

  lemma {:induction false} WithoutNoDup<T(!new)>(s: seq<T>, excluded: seq<T>)
    requires NoDup(s)
    ensures NoDup(Without(s, excluded))
  {
    if s != [] {
      WithoutNoDup(s[1..], excluded);
      if s[0] !in excluded {
        var t := Without(s[1..], excluded);
        var r := [s[0]] + t;
        assert s[0] !in s[1..];
        assert s[0] !in t;
        forall i, j | 0 <= i < j < |r| ensures r[i] != r[j] {
          assert r[j] == t[j - 1];
          if i > 0 {
            assert r[i] == t[i - 1];
          }
        }
      }
    }
  }

  /** `indexOf`: the first position of `x`, or -1. */
  function IndexOf<T(==)>(s: seq<T>, x: T): (r: int)
    ensures r == -1 <==> x !in s
    ensures r != -1 ==> 0 <= r < |s| && s[r] == x && x !in s[..r]
  {
    if s == [] then -1
    else if s[0] == x then 0
    else
      var k := IndexOf(s[1..], x);
      assert s == [s[0]] + s[1..];
      if k == -1 then -1
      else
        assert s[..k + 1] == [s[0]] + s[1..][..k];
        k + 1
  }

  /** The first position is the one holding `x` with no `x` before it. */
  lemma {:induction false} IndexOfAt<T(!new)>(s: seq<T>, x: T, p: int)
    requires 0 <= p < |s| && s[p] == x && x !in s[..p]
    ensures IndexOf(s, x) == p
  {
    if p > 0 {
      assert s[0] == s[..p][0];
      assert s[1..][..p - 1] == s[1..p];
      assert s[1..p] == s[..p][1..];
      IndexOfAt(s[1..], x, p - 1);
    }
  }

  /** Appending an element leaves the first positions of the earlier elements where they were. */
  lemma IndexOfSnoc<T(!new)>(s: seq<T>, x: T)
    ensures forall y :: y in s ==> IndexOf(s + [x], y) == IndexOf(s, y)
    ensures x !in s ==> IndexOf(s + [x], x) == |s|
  {
    var u := s + [x];
    forall y | y in s ensures IndexOf(u, y) == IndexOf(s, y) {
      IndexOfAt(u, y, IndexOf(s, y));
    }
    if x !in s {
      IndexOfAt(u, x, |s|);
    }
  }

  /** `Array.from(new Set(s))`: the elements of `s`, each once, in the order of their first occurrence. */
  function Dedup<T(==,!new)>(s: seq<T>): (r: seq<T>)
    ensures NoDup(r)
    ensures forall y :: y in r <==> y in s
    ensures forall i, j :: 0 <= i < j < |r| ==> IndexOf(s, r[i]) < IndexOf(s, r[j])
    ensures |r| <= |s|
  {
    if s == [] then []
    else
      var init := s[..|s| - 1];
      var d := Dedup(init);
      assert s == init + [s[|s| - 1]];
      IndexOfSnoc(init, s[|s| - 1]);
      if s[|s| - 1] in d then d
      else
        assert forall i :: 0 <= i < |d| ==> IndexOf(init, d[i]) < |init|;
        d + [s[|s| - 1]]
  }

  /** A `Set` adds an element at the end when it is new and ignores it otherwise. */
  lemma DedupSnoc<T(!new)>(s: seq<T>, x: T)
    ensures Dedup(s + [x]) == if x in s then Dedup(s) else Dedup(s) + [x]
  {
    assert (s + [x])[..|s + [x]| - 1] == s;
  }

  /** A list that is already duplicate-free goes through the `Set` unchanged. */
  lemma {:induction false} DedupNoDup<T(!new)>(s: seq<T>)
    requires NoDup(s)
    ensures Dedup(s) == s
  {
    if s != [] {
      var init := s[..|s| - 1];
      assert NoDup(init);
      DedupNoDup(init);
      assert s[|s| - 1] !in init;
      assert init + [s[|s| - 1]] == s;
    }
  }

  /** Remove the element when present, append it otherwise (the checkbox and tag-badge toggles). */
  function Toggle<T(==,!new)>(s: seq<T>, x: T): (r: seq<T>)
    ensures x in s ==> x !in r && forall y :: y != x ==> multiset(r)[y] == multiset(s)[y]
    ensures x in s ==> IsSubsequence(r, s)
    ensures x !in s ==> r == s + [x]
  {
    if x in s then RemoveAll(s, x) else s + [x]
  }

  /** Toggling an absent element twice restores the list. */
  lemma ToggleTwice<T(!new)>(s: seq<T>, x: T)
    requires x !in s
    ensures Toggle(Toggle(s, x), x) == s
  {
    RemoveAllAppend(s, [x], x);
    assert RemoveAll([x], x) == [];
  }

  /** Toggling keeps a duplicate-free list duplicate-free. */
  lemma TogglePreservesNoDup<T(!new)>(s: seq<T>, x: T)
    requires NoDup(s)
    ensures NoDup(Toggle(s, x))
  {
    if x in s {
      RemoveAllNoDup(s, x);
    }
  }
}
