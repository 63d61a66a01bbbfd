// Sorted lists of strings, as sort.Strings leaves them: the order, and that a sorted list is determined
// by its elements.
module SortedLines {

  // Lexicographic order by character.
  predicate LessEq(a: string, b: string) {
    a == [] || (b != [] && (a[0] < b[0] || (a[0] == b[0] && LessEq(a[1..], b[1..]))))
  }

  lemma {:induction false} LessEqTotal(a: string, b: string)
    ensures LessEq(a, b) || LessEq(b, a)
  {
    if a != [] && b != [] && a[0] == b[0] {
      LessEqTotal(a[1..], b[1..]);
    }
  }

  lemma {:induction false} LessEqAntisymmetric(a: string, b: string)
    requires LessEq(a, b) && LessEq(b, a)
    ensures a == b
  {
    if a != [] {
      LessEqAntisymmetric(a[1..], b[1..]);
      assert a == [a[0]] + a[1..] && b == [b[0]] + b[1..];
    }
  }

  lemma {:induction false} LessEqTransitive(a: string, b: string, c: string)
    requires LessEq(a, b) && LessEq(b, c)
    ensures LessEq(a, c)
  {
    if a != [] && a[0] == b[0] && b[0] == c[0] {
      LessEqTransitive(a[1..], b[1..], c[1..]);
    }
  }

  // a and b agree up to k, where a ends or has the smaller character.
  predicate SmallerAt(a: string, b: string, k: nat) {
    k <= |a| && k < |b| && a[..k] == b[..k] && (k == |a| || a[k] as int < b[k] as int)
  }

  lemma SmallerFurther(a: string, b: string, k: nat)
    requires a != "" && b != "" && a[0] == b[0]
    ensures SmallerAt(a, b, k + 1) <==> SmallerAt(a[1..], b[1..], k)
    ensures !SmallerAt(a, b, 0)
  {
    if k + 1 <= |a| && k + 1 < |b| {
      assert a[..k + 1] == [a[0]] + a[1..][..k] && b[..k + 1] == [b[0]] + b[1..][..k];
      assert a[1..][..k] == a[..k + 1][1..] && b[1..][..k] == b[..k + 1][1..];
    }
  }

  lemma HeadsAgree(a: string, b: string, k: nat)
    requires a != "" && b != "" && SmallerAt(a, b, k) && k > 0
    ensures a[0] == b[0]
  {
    assert a[..k][0] == a[0] && b[..k][0] == b[0];
  }

  // The order is decided at the first place where the two differ, an end coming before any character.
  lemma {:induction false} LessEqIff(a: string, b: string)
    ensures LessEq(a, b) <==> a == b || exists k: nat :: SmallerAt(a, b, k)
  {
    if a == [] {
      if b != [] {
        assert SmallerAt(a, b, 0);
      }
    } else if b != [] && a[0] == b[0] {
      LessEqIff(a[1..], b[1..]);
      assert a == [a[0]] + a[1..] && b == [b[0]] + b[1..];
      if k: nat :| SmallerAt(a[1..], b[1..], k) {
        SmallerFurther(a, b, k);
      }
      if k: nat :| SmallerAt(a, b, k) {
        SmallerFurther(a, b, if k > 0 then k - 1 else 0);
      }
    } else if b != [] {
      assert a[0] < b[0] ==> SmallerAt(a, b, 0);
      if k: nat :| SmallerAt(a, b, k) {
        if k > 0 {
          HeadsAgree(a, b, k);
        }
      }
    }
  }

  predicate Sorted(s: seq<string>) {
    forall i, j :: 0 <= i < j < |s| ==> LessEq(s[i], s[j])
  }

  predicate NoRepeats<T(==)>(s: seq<T>) {
    forall i, j :: 0 <= i < j < |s| ==> s[i] != s[j]
  }

  lemma FirstElements(a: seq<string>, b: seq<string>)
    requires Sorted(a) && Sorted(b) && multiset(a) == multiset(b) && a != []
    ensures b != [] && a[0] == b[0]
  {
    assert a[0] in multiset(b) && |b| > 0;
    assert b[0] in multiset(a);
    var i :| 0 <= i < |b| && b[i] == a[0];
    var j :| 0 <= j < |a| && a[j] == b[0];
    LessEqTotal(a[0], a[0]);
    LessEqTotal(b[0], b[0]);
    LessEqAntisymmetric(a[0], b[0]);
  }

  lemma TailCounts<T>(s: seq<T>)
    requires s != []
    ensures multiset(s[1..]) == multiset(s) - multiset{s[0]}
  {
    assert s == [s[0]] + s[1..];
  }

  // Two sorted lists of the same strings are equal.
  lemma {:induction false} SortedUnique(a: seq<string>, b: seq<string>)
    requires Sorted(a) && Sorted(b) && multiset(a) == multiset(b)
    ensures a == b
    decreases |a|
  {
    if a == [] {
      assert |multiset(a)| == 0 && |multiset(b)| == |b|;
    } else {
      FirstElements(a, b);
      assert a == [a[0]] + a[1..] && b == [b[0]] + b[1..];
      TailCounts(a);
      TailCounts(b);
      SortedUnique(a[1..], b[1..]);
    }
  }

  lemma {:induction false} CountWithoutRepeats<T>(s: seq<T>, x: T)
    requires NoRepeats(s)
    ensures multiset(s)[x] == if x in s then 1 else 0
    decreases |s|
  {
    if s != [] {
      assert s == [s[0]] + s[1..];
      CountWithoutRepeats(s[1..], x);
      assert s[0] !in s[1..];
    }
  }

  lemma RepeatCountsTwice<T>(s: seq<T>, i: nat, j: nat)
    requires i < j < |s| && s[i] == s[j]
    ensures multiset(s)[s[i]] >= 2
  {
    assert s == s[..j] + s[j..];
    assert s[i] in s[..j] && s[i] in s[j..];
    assert multiset(s)[s[i]] == multiset(s[..j])[s[i]] + multiset(s[j..])[s[i]];
  }

  lemma RepeatsCounted<T>(s: seq<T>)
    requires forall x :: multiset(s)[x] <= 1
    ensures NoRepeats(s)
  {
    forall i, j | 0 <= i < j < |s|
      ensures s[i] != s[j]
    {
      if s[i] == s[j] {
        RepeatCountsTwice(s, i, j);
      }
    }
  }

  // Two sorted lists without repeats and with the same members are equal.
  lemma ListingUnique(a: seq<string>, b: seq<string>)
    requires Sorted(a) && Sorted(b) && NoRepeats(a) && NoRepeats(b)
    requires forall x :: x in a <==> x in b
    ensures a == b
  {
    forall x
      ensures multiset(a)[x] == multiset(b)[x]
    {
      CountWithoutRepeats(a, x);
      CountWithoutRepeats(b, x);
    }
    SortedUnique(a, b);
  }

  lemma SortingKeeps(s: seq<string>, r: seq<string>)
    requires multiset(s) == multiset(r)
    ensures forall x :: x in s <==> x in r
    ensures NoRepeats(s) ==> NoRepeats(r)
  {
    forall x
      ensures x in s <==> x in r
    {
      assert x in multiset(s) <==> x in multiset(r);
    }
    if NoRepeats(s) {
      forall x
        ensures multiset(r)[x] <= 1
      {
        CountWithoutRepeats(s, x);
      }
      RepeatsCounted(r);
    }
  }

  // Inserts x into a sorted list.
  method Insert(s: seq<string>, x: string) returns (r: seq<string>)
    requires Sorted(s)
    ensures Sorted(r) && multiset(r) == multiset(s) + multiset{x}
  {
    var i := 0;
    while i < |s| && LessEq(s[i], x)
      invariant 0 <= i <= |s| && forall j :: 0 <= j < i ==> LessEq(s[j], x)
    {
      i := i + 1;
    }
    forall j | i <= j < |s|
      ensures LessEq(x, s[j])
    {
      LessEqTotal(x, s[i]);
      if j > i {
        LessEqTransitive(x, s[i], s[j]);
      }
    }
    r := s[..i] + [x] + s[i..];
    assert s == s[..i] + s[i..];
  }

  // sort.Strings
  method SortStrings(s: seq<string>) returns (r: seq<string>)
    ensures Sorted(r) && multiset(r) == multiset(s)
  {
    r := [];
    for i := 0 to |s|
      invariant Sorted(r) && multiset(r) == multiset(s[..i])
    {
      assert s[..i + 1] == s[..i] + [s[i]];
      r := Insert(r, s[i]);
    }
    assert s[..|s|] == s;
  }
}
