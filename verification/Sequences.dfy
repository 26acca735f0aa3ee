/** Facts about lists that several models need: images, sums, sublists, and
    properties of all pairs. */
module Sequences {

  /** The position of the first element that satisfies p, or the length. */
  function FirstIndex<T>(s: seq<T>, p: T -> bool): (i: nat)
    ensures i <= |s|
    ensures i < |s| ==> p(s[i])
    ensures forall j :: 0 <= j < i ==> !p(s[j])
  {
    if s == [] || p(s[0]) then 0 else 1 + FirstIndex(s[1..], p)
  }

  /** The list of what f makes of each element. */
  function Each<T, U>(s: seq<T>, f: T -> U): (r: seq<U>)
    ensures |r| == |s| && forall i :: 0 <= i < |s| ==> r[i] == f(s[i])
  {
    seq(|s|, i requires 0 <= i < |s| => f(s[i]))
  }

  lemma EachNext<T, U>(s: seq<T>, i: nat, done: seq<U>, out: U, f: T -> U)
    requires i < |s| && done == Each(s[..i], f) && out == f(s[i])
    ensures done + [out] == Each(s[..i + 1], f)
  {
  }

  /** The elements that satisfy p, in order. */
  function Filtered<T>(s: seq<T>, p: T -> bool): (r: seq<T>)
    ensures forall x :: x in r ==> x in s && p(x)
    ensures forall x :: x in s && p(x) ==> x in r
  {
    if s == [] then []
    else
      assert s == s[..|s| - 1] + [s[|s| - 1]];
      Filtered(s[..|s| - 1], p) + if p(s[|s| - 1]) then [s[|s| - 1]] else []
  }

  lemma {:induction false} FilteredCount<T>(s: seq<T>, p: T -> bool, x: T)
    ensures multiset(Filtered(s, p))[x] == if p(x) then multiset(s)[x] else 0
  {
    if s != [] {
      assert s == s[..|s| - 1] + [s[|s| - 1]];
      FilteredCount(s[..|s| - 1], p, x);
    }
  }

  lemma FilteredLast<T>(s: seq<T>, x: T, p: T -> bool)
    ensures Filtered(s + [x], p) == Filtered(s, p) + if p(x) then [x] else []
  {
    assert (s + [x])[..|s|] == s;
  }

  lemma Regrouped<T>(a: seq<T>, b: seq<T>, c: seq<T>)
    ensures a + b + c == a + (b + c)
  {
  }

  lemma FilteredConsStep<T>(x: T, init: seq<T>, last: T, p: T -> bool)
    requires Filtered([x] + init, p) == (if p(x) then [x] else []) + Filtered(init, p)
    ensures Filtered([x] + init + [last], p) == (if p(x) then [x] else []) + Filtered(init + [last], p)
  {
    FilteredLast([x] + init, last, p);
    FilteredLast(init, last, p);
    Regrouped(if p(x) then [x] else [], Filtered(init, p), if p(last) then [last] else []);
  }

  lemma {:induction false} FilteredCons<T>(x: T, s: seq<T>, p: T -> bool)
    ensures Filtered([x] + s, p) == (if p(x) then [x] else []) + Filtered(s, p)
  {
    if s == [] {
      FilteredLast([], x, p);
      assert [x] + s == [] + [x];
    } else {
      var init, last := s[..|s| - 1], s[|s| - 1];
      FilteredCons(x, init, p);
      FilteredConsStep(x, init, last, p);
      Regrouped([x], init, [last]);
      assert s == init + [last];
    }
  }

  lemma {:induction false} FilteredAll<T>(s: seq<T>, p: T -> bool)
    requires forall x :: x in s ==> p(x)
    ensures Filtered(s, p) == s
  {
    if s != [] {
      assert s == s[..|s| - 1] + [s[|s| - 1]];
      FilteredAll(s[..|s| - 1], p);
    }
  }

  /** What f makes of the elements, with their multiplicity. */
  ghost function Image<T, U>(s: seq<T>, f: T -> U): multiset<U> {
    if s == [] then multiset{} else multiset{f(s[0])} + Image(s[1..], f)
  }

  ghost function Sum<T>(s: seq<T>, f: T -> int): int {
    if s == [] then 0 else f(s[0]) + Sum(s[1..], f)
  }

  ghost predicate Pairwise<T>(s: seq<T>, r: (T, T) -> bool) {
    forall i, j :: 0 <= i < j < |s| ==> r(s[i], s[j])
  }

  /** a is b with some elements left out. */
  ghost predicate Sublist<T>(a: seq<T>, b: seq<T>) {
    || a == []
    || (b != [] && (Sublist(a, b[1..]) || (a[0] == b[0] && Sublist(a[1..], b[1..]))))
  }

  lemma {:induction false} ImageConcat<T, U>(a: seq<T>, b: seq<T>, f: T -> U)
    ensures Image(a + b, f) == Image(a, f) + Image(b, f)
  {
    if a == [] {
      assert a + b == b;
    } else {
      assert (a + b)[1..] == a[1..] + b;
      ImageConcat(a[1..], b, f);
    }
  }

  lemma {:induction false} SumConcat<T>(a: seq<T>, b: seq<T>, f: T -> int)
    ensures Sum(a + b, f) == Sum(a, f) + Sum(b, f)
  {
    if a == [] {
      assert a + b == b;
    } else {
      assert (a + b)[1..] == a[1..] + b;
      SumConcat(a[1..], b, f);
    }
  }

  /** Splits one element out of a list. */
  lemma Around<T>(s: seq<T>, i: nat)
    requires i < |s|
    ensures s == s[..i] + [s[i]] + s[i + 1..]
  {
  }

  lemma ImageMoved<T, U>(s: seq<T>, i: nat, x: T, f: T -> U)
    requires i < |s| && f(x) == f(s[i])
    ensures Image([x] + s[..i] + s[i + 1..], f) == Image(s, f)
  {
    Around(s, i);
    ImageConcat(s[..i] + [s[i]], s[i + 1..], f);
    ImageConcat(s[..i], [s[i]], f);
    ImageConcat([x] + s[..i], s[i + 1..], f);
    ImageConcat([x], s[..i], f);
  }

  lemma SumMoved<T>(s: seq<T>, i: nat, x: T, f: T -> int)
    requires i < |s|
    ensures Sum([x] + s[..i] + s[i + 1..], f) == Sum(s, f) - f(s[i]) + f(x)
  {
    Around(s, i);
    SumConcat(s[..i] + [s[i]], s[i + 1..], f);
    SumConcat(s[..i], [s[i]], f);
    SumConcat([x] + s[..i], s[i + 1..], f);
    SumConcat([x], s[..i], f);
  }

  lemma {:induction false} SublistRefl<T>(a: seq<T>)
    ensures Sublist(a, a)
  {
    if a != [] { SublistRefl(a[1..]); }
  }

  lemma {:induction false} SublistMembers<T>(a: seq<T>, b: seq<T>)
    requires Sublist(a, b)
    ensures forall x :: x in a ==> x in b
  {
    if a != [] {
      assert a == [a[0]] + a[1..];
      if Sublist(a, b[1..]) { SublistMembers(a, b[1..]); } else { SublistMembers(a[1..], b[1..]); }
    }
  }

  lemma {:induction false} SublistTransitive<T>(a: seq<T>, b: seq<T>, c: seq<T>)
    requires Sublist(a, b) && Sublist(b, c)
    ensures Sublist(a, c)
  {
    if a != [] {
      if Sublist(b, c[1..]) {
        SublistTransitive(a, b, c[1..]);
      } else if Sublist(a, b[1..]) {
        SublistTransitive(a, b[1..], c[1..]);
      } else {
        SublistTransitive(a[1..], b[1..], c[1..]);
      }
    }
  }

  lemma {:induction false} SublistPairwise<T>(a: seq<T>, b: seq<T>, r: (T, T) -> bool)
    requires Sublist(a, b) && Pairwise(b, r)
    ensures Pairwise(a, r)
  {
    if a != [] {
      if Sublist(a, b[1..]) {
        SublistPairwise(a, b[1..], r);
      } else {
        SublistPairwise(a[1..], b[1..], r);
        SublistMembers(a[1..], b[1..]);
        forall j | 0 < j < |a| ensures r(a[0], a[j]) {
          assert a[j] == a[1..][j - 1] && a[j] in b[1..];
        }
        forall i, j | 0 < i < j < |a| ensures r(a[i], a[j]) {
          assert a[i] == a[1..][i - 1] && a[j] == a[1..][j - 1];
        }
      }
    }
  }

  /** The elements left out of a sublist; with them, every sum comes out the same. */
  lemma {:induction false} LeftOut<T>(a: seq<T>, b: seq<T>) returns (out: seq<T>)
    requires Sublist(a, b)
    ensures multiset(a) + multiset(out) == multiset(b)
  {
    if a == [] {
      out := b;
    } else {
      assert a == [a[0]] + a[1..] && b == [b[0]] + b[1..];
      if Sublist(a, b[1..]) {
        var rest := LeftOut(a, b[1..]);
        out := [b[0]] + rest;
      } else {
        out := LeftOut(a[1..], b[1..]);
      }
    }
  }

  lemma ElsewhereSatisfied<T>(s: seq<T>, i: nat, p: T -> bool)
    requires i < |s| && forall j :: 0 <= j < i ==> !p(s[j])
    ensures (exists x :: x in s[..i] + s[i + 1..] && p(x)) <==> exists j :: i < j < |s| && p(s[j])
  {
    var rest := s[..i] + s[i + 1..];
    if j :| i < j < |s| && p(s[j]) {
      assert rest[j - 1] == s[j];
    }
    if x :| x in rest && p(x) {
      var k :| 0 <= k < |rest| && rest[k] == x;
      assert rest[k] == s[if k < i then k else k + 1];
    }
  }

  /** The largest value of f, and at least 0. */
  ghost function Peak<T>(s: seq<T>, f: T -> int): (m: int) {
    if s == [] then 0
    else
      var m := Peak(s[..|s| - 1], f);
      if f(s[|s| - 1]) > m then f(s[|s| - 1]) else m
  }

  lemma {:induction false} PeakIsBound<T>(s: seq<T>, f: T -> int)
    ensures Peak(s, f) >= 0
    ensures forall x :: x in s ==> f(x) <= Peak(s, f)
    ensures Peak(s, f) == 0 || exists x :: x in s && f(x) == Peak(s, f)
  {
    if s != [] {
      assert s == s[..|s| - 1] + [s[|s| - 1]];
      PeakIsBound(s[..|s| - 1], f);
    }
  }

  /** Taking one element out of a list. */
  lemma Without<T>(s: seq<T>, i: nat)
    requires i < |s|
    ensures multiset(s[..i] + s[i + 1..]) == multiset(s) - multiset{s[i]}
  {
    Around(s, i);
    assert multiset(s) == multiset(s[..i]) + multiset{s[i]} + multiset(s[i + 1..]);
  }

  lemma SumWithout<T>(s: seq<T>, i: nat, f: T -> int)
    requires i < |s|
    ensures Sum(s[..i] + s[i + 1..], f) == Sum(s, f) - f(s[i])
  {
    Around(s, i);
    SumConcat(s[..i] + [s[i]], s[i + 1..], f);
    SumConcat(s[..i], [s[i]], f);
    SumConcat(s[..i], s[i + 1..], f);
  }

  lemma ImageWithout<T, U>(s: seq<T>, i: nat, f: T -> U)
    requires i < |s|
    ensures Image(s[..i] + s[i + 1..], f) + multiset{f(s[i])} == Image(s, f)
  {
    Around(s, i);
    ImageConcat(s[..i] + [s[i]], s[i + 1..], f);
    ImageConcat(s[..i], [s[i]], f);
    ImageConcat(s[..i], s[i + 1..], f);
  }

  /** Where b has the first element of a, and that the rests are permutations too. */
  lemma FirstElsewhere<T>(a: seq<T>, b: seq<T>) returns (i: nat)
    requires a != [] && multiset(a) == multiset(b)
    ensures i < |b| && b[i] == a[0] && multiset(a[1..]) == multiset(b[..i] + b[i + 1..])
  {
    assert a[0] in multiset(b);
    i :| 0 <= i < |b| && b[i] == a[0];
    Without(b, i);
    assert a == [a[0]] + a[1..];
    assert multiset(a[1..]) == multiset(a) - multiset{a[0]};
  }

  lemma {:induction false} SumPermutation<T>(a: seq<T>, b: seq<T>, f: T -> int)
    requires multiset(a) == multiset(b)
    ensures Sum(a, f) == Sum(b, f)
  {
    if a == [] {
      assert |b| == |multiset(b)| == 0;
    } else {
      var i := FirstElsewhere(a, b);
      SumWithout(b, i, f);
      SumPermutation(a[1..], b[..i] + b[i + 1..], f);
    }
  }

  lemma {:induction false} ImagePermutation<T, U>(a: seq<T>, b: seq<T>, f: T -> U)
    requires multiset(a) == multiset(b)
    ensures Image(a, f) == Image(b, f)
  {
    if a == [] {
      assert |b| == |multiset(b)| == 0;
    } else {
      var i := FirstElsewhere(a, b);
      ImageWithout(b, i, f);
      ImagePermutation(a[1..], b[..i] + b[i + 1..], f);
    }
  }

  lemma SameMembers<T>(a: seq<T>, b: seq<T>)
    requires multiset(a) == multiset(b)
    ensures forall x :: x in a <==> x in b
  {
    forall x ensures x in a <==> x in b {
      assert x in a <==> x in multiset(a);
      assert x in b <==> x in multiset(b);
    }
  }

  lemma PeakPermutation<T>(a: seq<T>, b: seq<T>, f: T -> int)
    requires multiset(a) == multiset(b)
    ensures Peak(a, f) == Peak(b, f)
  {
    SameMembers(a, b);
    PeakIsBound(a, f);
    PeakIsBound(b, f);
  }

  lemma {:induction false} SumAlike<T>(s: seq<T>, f: T -> int, g: T -> int)
    requires forall x :: x in s ==> f(x) == g(x)
    ensures Sum(s, f) == Sum(s, g)
  {
    if s != [] { SumAlike(s[1..], f, g); }
  }

  lemma SumAppend<T>(s: seq<T>, x: T, f: T -> int)
    ensures Sum(s + [x], f) == Sum(s, f) + f(x)
  {
    SumConcat(s, [x], f);
  }

  /** Two lists that agree element for element agree on whether any is satisfied. */
  lemma AnyAlike<T, U>(a: seq<T>, b: seq<U>, p: T -> bool, q: U -> bool)
    requires |a| == |b| && forall i :: 0 <= i < |a| ==> (p(a[i]) <==> q(b[i]))
    ensures (exists x :: x in a && p(x)) <==> (exists y :: y in b && q(y))
  {
    if x :| x in a && p(x) {
      var i :| 0 <= i < |a| && a[i] == x;
      assert b[i] in b;
    }
    if y :| y in b && q(y) {
      var i :| 0 <= i < |b| && b[i] == y;
      assert a[i] in a;
    }
  }

  lemma EachFixed<T>(s: seq<T>, f: T -> T)
    requires forall i :: 0 <= i < |s| ==> f(s[i]) == s[i]
    ensures Each(s, f) == s
  {
  }

  /** Filtering and mapping twice is filtering and mapping once, when the mapping has
      nothing to do the second time. */
  lemma FilteredEachTwice<T>(s: seq<T>, p: T -> bool, f: T -> T)
    requires forall x :: x in s && p(x) ==> p(f(x)) && f(f(x)) == f(x)
    ensures var once := Each(Filtered(s, p), f);
            Filtered(once, p) == once && Each(once, f) == once
  {
    var kept := Filtered(s, p);
    var once := Each(kept, f);
    forall i | 0 <= i < |once| ensures p(once[i]) && f(once[i]) == once[i] {
      assert kept[i] in kept;
      assert kept[i] in s && p(kept[i]) && once[i] == f(kept[i]);
    }
    EachFixed(once, f);
    forall y | y in once ensures p(y) {
      var i :| 0 <= i < |once| && once[i] == y;
    }
    FilteredAll(once, p);
  }

  lemma FilteredEachMembers<T>(s: seq<T>, p: T -> bool, f: T -> T, y: T)
    requires y in Each(Filtered(s, p), f)
    ensures exists x :: x in s && p(x) && y == f(x)
  {
    var kept := Filtered(s, p);
    var i :| 0 <= i < |kept| && Each(kept, f)[i] == y;
    assert kept[i] in kept;
  }
}
