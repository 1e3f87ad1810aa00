/** The string operations the core relies on: `split(",")` and `join`, `filter(Boolean)` on the
    segments, `toLowerCase` with `includes`, and the default ordering used by `Array.prototype.sort`. */
module Text {
  import opened Lists

  const Comma: char := ','

  predicate CommaFree(s: string) {
    Comma !in s
  }

  /** `s.split(",")`: the segments between commas, empty ones included; never an empty list. */
  function Split(s: string): (r: seq<string>)
    ensures |r| >= 1
    ensures forall k :: 0 <= k < |r| ==> CommaFree(r[k])
    ensures CommaFree(s) ==> r == [s]
  {
    if s == [] then [""]
    else if s[0] == Comma then [""] + Split(s[1..])
    else
      var rest := Split(s[1..]);
      assert s == [s[0]] + s[1..];
      [[s[0]] + rest[0]] + rest[1..]
  }

  /** `items.join(sep)`. */
  function Join(items: seq<string>, sep: string): string {
    if |items| == 0 then ""
    else if |items| == 1 then items[0]
    else items[0] + sep + Join(items[1..], sep)
  }

  /** Splitting a comma-free prefix followed by a comma yields the prefix, then the rest's segments. */
  lemma {:induction false} SplitAfterSegment(a: string, rest: string)
    requires CommaFree(a)
    ensures Split(a + [Comma] + rest) == [a] + Split(rest)
  {
    if a == [] {
      assert a + [Comma] + rest == [Comma] + rest;
      assert ([Comma] + rest)[1..] == rest;
    } else {
      var s := a + [Comma] + rest;
      assert s[0] == a[0] && s[1..] == a[1..] + [Comma] + rest;
      SplitAfterSegment(a[1..], rest);
      assert [a[0]] + a[1..] == a;
    }
  }

  /** Splitting a joined list of comma-free items gives the items back. */
  lemma {:induction false} SplitJoin(items: seq<string>)
    requires |items| >= 1
    requires forall k :: 0 <= k < |items| ==> CommaFree(items[k])
    ensures Split(Join(items, [Comma])) == items
  {
    if |items| > 1 {
      SplitJoin(items[1..]);
      SplitAfterSegment(items[0], Join(items[1..], [Comma]));
      assert [items[0]] + items[1..] == items;
    }
  }

  /** A string of commas only splits into empty segments. */
  lemma {:induction false} SplitCommas(s: string)
    requires forall k :: 0 <= k < |s| ==> s[k] == Comma
    ensures forall k :: 0 <= k < |Split(s)| ==> Split(s)[k] == ""
  {
    if s != [] {
      SplitCommas(s[1..]);
      assert Split(s) == [""] + Split(s[1..]);
    }
  }

  /** Joining the segments of a split string restores the string. */
  lemma {:induction false} JoinSplit(s: string)
    ensures Join(Split(s), [Comma]) == s
  {
    if s != [] {
      JoinSplit(s[1..]);
      if s[0] == Comma {
        assert Split(s) == [""] + Split(s[1..]);
        assert Split(s)[1..] == Split(s[1..]);
        assert [s[0]] + s[1..] == s;
      } else {
        var rest := Split(s[1..]);
        var r := [[s[0]] + rest[0]] + rest[1..];
        assert r[1..] == rest[1..];
        if |rest| == 1 {
          assert [s[0]] + rest[0] == s;
        } else {
          assert Join(rest, [Comma]) == rest[0] + [Comma] + Join(rest[1..], [Comma]);
          assert Join(r, [Comma]) == [s[0]] + rest[0] + [Comma] + Join(rest[1..], [Comma]);
          assert [s[0]] + s[1..] == s;
        }
      }
    }
  }

  /** `items.filter(Boolean)`: the non-empty segments, in order. */
  function DropEmpty(items: seq<string>): (r: seq<string>)
    ensures forall k :: 0 <= k < |r| ==> r[k] != ""
    ensures forall x :: x in r <==> x in items && x != ""
    ensures IsSubsequence(r, items)
    ensures multiset(r)[""] == 0 && forall y :: y != "" ==> multiset(r)[y] == multiset(items)[y]
    ensures (forall k :: 0 <= k < |items| ==> items[k] != "") ==> r == items
    ensures (forall k :: 0 <= k < |items| ==> items[k] == "") ==> r == []
  {
    var r := RemoveAll(items, "");
    assert r != [] ==> r[0] in r;
    r
  }

  /** An ASCII case fold standing for `toLowerCase`. */
  function LowerChar(c: char): (d: char)
    ensures 'A' <= c <= 'Z' ==> d as int == c as int + 32
    ensures !('A' <= c <= 'Z') ==> d == c
    ensures !('A' <= d <= 'Z')
  {
    if 'A' <= c <= 'Z' then (c as int + 32) as char else c
  }

  function Lower(s: string): (r: string)
    ensures |r| == |s|
    ensures forall k :: 0 <= k < |s| ==> r[k] == LowerChar(s[k])
  {
    seq(|s|, k requires 0 <= k < |s| => LowerChar(s[k]))
  }

  /** Lower-casing twice is lower-casing once. */
  lemma LowerIdempotent(s: string)
    ensures Lower(Lower(s)) == Lower(s)
  {
  }

  /** `needle` occurs in `hay` starting at position `i`. */
  predicate OccursAt(hay: string, needle: string, i: nat) {
    i + |needle| <= |hay| && hay[i..i + |needle|] == needle
  }

  /** `hay.includes(needle)`: a prefix of `hay` or of one of its suffixes. */
  predicate Contains(hay: string, needle: string) {
    needle <= hay || (hay != [] && Contains(hay[1..], needle))
  }

  /** The suffix-by-suffix test holds exactly when the needle occurs at some position. */
  lemma {:induction false} ContainsOccurs(hay: string, needle: string)
    ensures Contains(hay, needle) <==> exists i: nat :: OccursAt(hay, needle, i)
  {
    if needle <= hay {
      assert OccursAt(hay, needle, 0);
    }
    if hay != [] {
      ContainsOccurs(hay[1..], needle);
      if Contains(hay[1..], needle) {
        var i: nat :| OccursAt(hay[1..], needle, i);
        assert hay[1..][i..i + |needle|] == hay[i + 1..i + 1 + |needle|];
        assert OccursAt(hay, needle, i + 1);
      }
    }
    if i: nat :| OccursAt(hay, needle, i) {
      if i == 0 {
        assert needle <= hay;
      } else {
        assert hay[1..][i - 1..i - 1 + |needle|] == hay[i..i + |needle|];
        assert OccursAt(hay[1..], needle, i - 1);
      }
    }
  }

  /** The order `Array.prototype.sort` uses by default: character by character, a proper prefix first. */
  predicate Below(a: string, b: string) {
    if a == [] then b != []
    else b != [] && (a[0] < b[0] || (a[0] == b[0] && Below(a[1..], b[1..])))
  }

  lemma {:induction false} BelowIrreflexive(a: string)
    ensures !Below(a, a)
  {
    if a != [] {
      BelowIrreflexive(a[1..]);
    }
  }

  lemma {:induction false} BelowTransitive(a: string, b: string, c: string)
    requires Below(a, b) && Below(b, c)
    ensures Below(a, c)
  {
    if a != [] && a[0] == b[0] && b[0] == c[0] {
      BelowTransitive(a[1..], b[1..], c[1..]);
    }
  }

  lemma {:induction false} BelowTotal(a: string, b: string)
    requires a != b
    ensures Below(a, b) || Below(b, a)
  {
    if a != [] && b != [] && a[0] == b[0] {
      assert a == [a[0]] + a[1..] && b == [b[0]] + b[1..];
      BelowTotal(a[1..], b[1..]);
    }
  }

  /** Each element is strictly below the next one: sorted and duplicate-free. */
  predicate StrictlyAscending(s: seq<string>) {
    forall k :: 0 <= k < |s| - 1 ==> Below(s[k], s[k + 1])
  }

  lemma {:induction false} AscendingHead(s: seq<string>, k: int)
    requires StrictlyAscending(s)
    requires 0 < k < |s|
    ensures Below(s[0], s[k])
  {
    if k > 1 {
      AscendingHead(s, k - 1);
      BelowTransitive(s[0], s[k - 1], s[k]);
    }
  }

  /** Inserts a string that is not yet present into its place in a strictly ascending list. */
  function Insert(x: string, s: seq<string>): (r: seq<string>)
    requires StrictlyAscending(s) && x !in s
    ensures StrictlyAscending(r)
    ensures forall y :: y in r <==> y == x || y in s
    ensures |r| == |s| + 1
    ensures r != [] && (r[0] == x || (s != [] && r[0] == s[0]))
  {
    if s == [] then [x]
    else if Below(x, s[0]) then [x] + s
    else
      BelowTotal(x, s[0]);
      var t := Insert(x, s[1..]);
      assert [s[0]] + s[1..] == s;
      assert Below(s[0], t[0]) by {
        if t[0] != x {
          AscendingHead(s, 1);
        }
      }
      [s[0]] + t
  }

  /** `Array.from(new Set(items)).sort()` for a duplicate-free list: the same strings, ascending. */
  function SortStrings(s: seq<string>): (r: seq<string>)
    requires NoDup(s)
    ensures StrictlyAscending(r)
    ensures forall y :: y in r <==> y in s
    ensures |r| == |s|
  {
    if s == [] then []
    else
      var t := SortStrings(s[1..]);
      assert s[0] !in s[1..];
      Insert(s[0], t)
  }

  lemma {:induction false} BelowAsymmetric(a: string, b: string)
    ensures !(Below(a, b) && Below(b, a))
  {
    if a != [] && b != [] && a[0] == b[0] {
      BelowAsymmetric(a[1..], b[1..]);
    }
  }

  /** The head of a strictly ascending list is below every other element. */
  lemma AscendingMin(s: seq<string>, y: string)
    requires StrictlyAscending(s) && y in s
    ensures y == s[0] || Below(s[0], y)
  {
    var k :| 0 <= k < |s| && s[k] == y;
    if k > 0 {
      AscendingHead(s, k);
    }
  }

  /** Two strictly ascending lists with the same elements are the same list: the sorted, duplicate-free
      tag list is determined by its set of tags alone. */
  lemma {:induction false} AscendingUnique(a: seq<string>, b: seq<string>)
    requires StrictlyAscending(a) && StrictlyAscending(b)
    requires forall y :: y in a <==> y in b
    ensures a == b
  {
    assert a != [] ==> a[0] in b;
    assert b != [] ==> b[0] in a;
    if a != [] && b != [] {
      AscendingMin(b, a[0]);
      AscendingMin(a, b[0]);
      BelowAsymmetric(a[0], b[0]);
      assert a[0] == b[0];
      forall y ensures y in a[1..] <==> y in b[1..] {
        assert a == [a[0]] + a[1..] && b == [b[0]] + b[1..];
        if y in a[1..] {
          var k :| 1 <= k < |a| && a[k] == y;
          AscendingHead(a, k);
          BelowIrreflexive(a[0]);
          assert y in a && y != a[0];
          assert y in b[1..];
        }
        if y in b[1..] {
          var k :| 1 <= k < |b| && b[k] == y;
          AscendingHead(b, k);
          BelowIrreflexive(b[0]);
          assert y in b && y != b[0];
          assert y in a[1..];
        }
      }
      AscendingUnique(a[1..], b[1..]);
      assert a == [a[0]] + a[1..] && b == [b[0]] + b[1..];
    }
  }
}
