/** The set-like list operations shared by the preference pickers: adding
    an id unless present (`includes` then `push`), removing every occurrence
    (`filter(x => x !== id)`), and the React panels' toggle, which does one
    or the other. */
module Selection {

  /** `list.includes(x) ? list : [...list, x]` */
  function Select<T(==)>(s: seq<T>, x: T): (r: seq<T>)
    ensures x !in s ==> r == s + [x]
    ensures x in s ==> r == s
    ensures x in r
  {
    if x in s then s else s + [x]
  }

  /** `list.filter(y => y !== x)` */
  function Without<T(==)>(s: seq<T>, x: T): (r: seq<T>)
    ensures x !in r
  {
    if s == [] then [] else (if s[0] == x then [] else [s[0]]) + Without(s[1..], x)
  }

  /** `list.includes(x) ? list.filter(y => y !== x) : [...list, x]` */
  function Toggle<T(==)>(s: seq<T>, x: T): seq<T> {
    if x in s then Without(s, x) else s + [x]
  }

  predicate NoDup<T(==)>(s: seq<T>) {
    forall i, j :: 0 <= i < j < |s| ==> s[i] != s[j]
  }

  /** a is b with some elements left out, the rest in their order. */
  predicate IsSubsequence<T(==)>(a: seq<T>, b: seq<T>)
    decreases |b|
  {
    if a == [] then true
    else if b == [] then false
    else (a[0] == b[0] && IsSubsequence(a[1..], b[1..])) || IsSubsequence(a, b[1..])
  }

  /** Removing x drops every occurrence of x and nothing else. */
  lemma {:induction false} WithoutCounts<T>(s: seq<T>, x: T)
    ensures multiset(Without(s, x)) == multiset(s)[x := 0]
    decreases |s|
  {
    if s != [] {
      WithoutCounts(s[1..], x);
      assert s == [s[0]] + s[1..];
      assert multiset(s) == multiset([s[0]]) + multiset(s[1..]);
    }
  }

  /** What remains after removing x keeps its order. */
  lemma {:induction false} WithoutKeepsOrder<T>(s: seq<T>, x: T)
    ensures IsSubsequence(Without(s, x), s)
    decreases |s|
  {
    if s != [] {
      WithoutKeepsOrder(s[1..], x);
      if s[0] == x {
        assert Without(s, x) == Without(s[1..], x);
        SubsequenceSkip(Without(s, x), s);
      } else {
        var w := Without(s, x);
        assert w == [s[0]] + Without(s[1..], x);
        assert w[0] == s[0] && w[1..] == Without(s[1..], x);
      }
    }
  }

  /** Removing x drops every occurrence of x and nothing else, keeping the
      order of what remains. */
  lemma WithoutCharacterized<T>(s: seq<T>, x: T)
    ensures multiset(Without(s, x)) == multiset(s)[x := 0]
    ensures IsSubsequence(Without(s, x), s)
    ensures forall y :: y in Without(s, x) <==> y in s && y != x
  {
    WithoutCounts(s, x);
    WithoutKeepsOrder(s, x);
    forall y ensures y in Without(s, x) <==> y in s && y != x {
      assert y in Without(s, x) <==> y in multiset(Without(s, x));
      assert y in s <==> y in multiset(s);
    }
  }

  lemma SubsequenceSkip<T>(a: seq<T>, b: seq<T>)
    requires b != [] && IsSubsequence(a, b[1..])
    ensures IsSubsequence(a, b)
  {
  }

  /** A subsequence of b stays one when b grows at the end, and when both
      grow by the same element. */
  lemma {:induction false} SubsequenceExtend<T>(a: seq<T>, b: seq<T>, x: T)
    requires IsSubsequence(a, b)
    ensures IsSubsequence(a, b + [x])
    ensures IsSubsequence(a + [x], b + [x])
    decreases |b|
  {
    if b == [] {
      assert a == [];
      assert ([x] + [])[1..] == [];
    } else {
      assert (b + [x])[0] == b[0] && (b + [x])[1..] == b[1..] + [x];
      if a == [] {
        SubsequenceExtend(a, b[1..], x);
        assert a + [x] == [x];
      } else {
        assert (a + [x])[0] == a[0] && (a + [x])[1..] == a[1..] + [x];
        if a[0] == b[0] && IsSubsequence(a[1..], b[1..]) {
          SubsequenceExtend(a[1..], b[1..], x);
        } else {
          SubsequenceExtend(a, b[1..], x);
        }
      }
    }
  }

  /** Every prefix of a subsequence of b is a subsequence of b. */
  lemma {:induction false} SubsequencePrefix<T>(a: seq<T>, b: seq<T>, k: nat)
    requires IsSubsequence(a, b) && k <= |a|
    ensures IsSubsequence(a[..k], b)
    decreases |b|
  {
    if k > 0 {
      assert a != [] && b != [];
      if a[0] == b[0] && IsSubsequence(a[1..], b[1..]) {
        SubsequencePrefix(a[1..], b[1..], k - 1);
        assert a[..k][0] == a[0] && a[..k][1..] == a[1..][..k - 1];
      } else {
        SubsequencePrefix(a, b[1..], k);
      }
    }
  }

  /** Removing an absent element changes nothing. */
  lemma {:induction false} WithoutAbsent<T>(s: seq<T>, x: T)
    requires x !in s
    ensures Without(s, x) == s
    decreases |s|
  {
    if s != [] {
      WithoutAbsent(s[1..], x);
      assert s == [s[0]] + s[1..];
    }
  }

  /** Removing from a concatenation removes from each part. */
  lemma {:induction false} WithoutAppend<T>(a: seq<T>, b: seq<T>, x: T)
    ensures Without(a + b, x) == Without(a, x) + Without(b, x)
    decreases |a|
  {
    if a == [] {
      assert a + b == b;
    } else {
      assert (a + b)[0] == a[0] && (a + b)[1..] == a[1..] + b;
      WithoutAppend(a[1..], b, x);
    }
  }

  /** Selecting and then deselecting an absent id restores the list. */
  lemma SelectThenDeselect<T>(s: seq<T>, x: T)
    requires x !in s
    ensures Without(Select(s, x), x) == s
  {
    WithoutAppend(s, [x], x);
    WithoutAbsent(s, x);
    assert Without([x], x) == [];
  }

  /** Toggling an absent item twice restores the list. */
  lemma ToggleTwice<T>(s: seq<T>, x: T)
    requires x !in s
    ensures Toggle(Toggle(s, x), x) == s
  {
    SelectThenDeselect(s, x);
  }

  /** Toggling adds an absent item at the end and removes a present one,
      keeping the order of the others. */
  lemma ToggleCharacterized<T>(s: seq<T>, x: T)
    ensures x !in s ==> Toggle(s, x) == s + [x]
    ensures x in s ==>
      && x !in Toggle(s, x)
      && IsSubsequence(Toggle(s, x), s)
      && multiset(Toggle(s, x)) == multiset(s)[x := 0]
  {
    WithoutCharacterized(s, x);
  }

  /** A duplicate-free list stays duplicate-free under each operation. */
  lemma {:induction false} WithoutKeepsNoDup<T>(s: seq<T>, x: T)
    requires NoDup(s)
    ensures NoDup(Without(s, x))
    decreases |s|
  {
    if s != [] {
      assert NoDup(s[1..]) by {
        forall i, j | 0 <= i < j < |s[1..]| ensures s[1..][i] != s[1..][j] {
          assert s[1..][i] == s[i + 1] && s[1..][j] == s[j + 1];
        }
      }
      WithoutKeepsNoDup(s[1..], x);
      WithoutCharacterized(s[1..], x);
      var rest := Without(s[1..], x);
      assert s[0] !in s[1..] by {
        forall k | 0 <= k < |s[1..]| ensures s[1..][k] != s[0] {
          assert s[1..][k] == s[k + 1];
        }
      }
      if s[0] != x {
        NoDupCons(s[0], rest);
      }
    }
  }

  lemma NoDupCons<T>(x: T, s: seq<T>)
    requires NoDup(s) && x !in s
    ensures NoDup([x] + s)
  {
    var t := [x] + s;
    forall i, j | 0 <= i < j < |t| ensures t[i] != t[j] {
      assert t[j] == s[j - 1];
      if i > 0 {
        assert t[i] == s[i - 1];
      }
    }
  }

  lemma SelectKeepsNoDup<T>(s: seq<T>, x: T)
    requires NoDup(s)
    ensures NoDup(Select(s, x))
  {
  }

  lemma ToggleKeepsNoDup<T>(s: seq<T>, x: T)
    ensures NoDup(s) ==> NoDup(Toggle(s, x))
  {
    if NoDup(s) && x in s {
      WithoutKeepsNoDup(s, x);
    }
  }
}
