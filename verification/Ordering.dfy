/** Sorting by a key: an unstable sort still has only one outcome when no two keys are equal. */
module Ordering {

  /** Byte order of UTF-8 strings, which is the order of their code points. */
  predicate Less(s: string, t: string) {
    if t == "" then false
    else if s == "" then true
    else s[0] < t[0] || (s[0] == t[0] && Less(s[1..], t[1..]))
  }

  lemma {:induction false} LessIsTotal(s: string, t: string)
    ensures s == t || Less(s, t) || Less(t, s)
    ensures !(Less(s, t) && Less(t, s))
  {
    if s != "" && t != "" && s[0] == t[0] {
      LessIsTotal(s[1..], t[1..]);
      assert s == [s[0]] + s[1..] && t == [t[0]] + t[1..];
    }
  }

  /** A string is less than another when it is a proper prefix of it, or has the smaller character where they first
      differ. */
  lemma {:induction false} LessIff(s: string, t: string)
    ensures Less(s, t)
       <==> s < t || exists k :: 0 <= k < |s| && k < |t| && s[..k] == t[..k] && s[k] < t[k]
  {
    if s != "" && t != "" {
      var s', t' := s[1..], t[1..];
      LessIff(s', t');
      if s[0] == t[0] {
        assert s < t <==> s' < t' by {
          assert s == [s[0]] + s' && t == [s[0]] + t';
        }
        if k :| 0 <= k < |s'| && k < |t'| && s'[..k] == t'[..k] && s'[k] < t'[k] {
          assert s[..k + 1] == [s[0]] + s'[..k] && t[..k + 1] == [s[0]] + t'[..k];
          assert s[k + 1] < t[k + 1];
        }
        if k :| 0 <= k < |s| && k < |t| && s[..k] == t[..k] && s[k] < t[k] {
          assert s'[..k - 1] == s[..k][1..] && t'[..k - 1] == t[..k][1..] && s'[k - 1] < t'[k - 1];
        }
      } else {
        assert s[..0] == t[..0];
        if k :| 0 <= k < |s| && k < |t| && s[..k] == t[..k] && s[k] < t[k] {
          assert k == 0 || s[..k][0] == t[..k][0];
        }
      }
    }
  }

  lemma {:induction false} LessIsTransitive(s: string, t: string, u: string)
    requires Less(s, t) && Less(t, u)
    ensures Less(s, u)
  {
    if s != "" && s[0] == t[0] == u[0] {
      LessIsTransitive(s[1..], t[1..], u[1..]);
    }
  }

  /** What a comparison must satisfy for sorting by it to mean anything. */
  ghost predicate Orders<T(!new)>(less: (T, T) -> bool) {
    forall x, y, z | !less(y, x) && !less(z, y) :: !less(z, x)
  }

  ghost predicate Sorted<T>(s: seq<T>, less: (T, T) -> bool) {
    forall i, j | 0 <= i < j < |s| :: !less(s[j], s[i])
  }

  /** A possible result of sorting: nothing is said about the order of equal keys. */
  ghost predicate SortOutcome<T>(input: seq<T>, output: seq<T>, less: (T, T) -> bool) {
    multiset(output) == multiset(input) && Sorted(output, less)
  }

  function Mapped<T, U>(s: seq<T>, f: T -> U): seq<U> {
    seq(|s|, i requires 0 <= i < |s| => f(s[i]))
  }

  function Without<T>(s: seq<T>, k: nat): seq<T>
    requires k < |s|
  {
    s[..k] + s[k + 1..]
  }

  lemma WithoutOne<T>(s: seq<T>, k: nat)
    requires k < |s|
    ensures multiset(s) == multiset(Without(s, k)) + multiset{s[k]}
    ensures multiset(Without(s, k)) == multiset(s) - multiset{s[k]}
  {
    assert s == s[..k] + [s[k]] + s[k + 1..];
  }

  lemma MappedWithout<T, U>(s: seq<T>, k: nat, f: T -> U)
    requires k < |s|
    ensures multiset(Mapped(s, f)) == multiset(Mapped(Without(s, k), f)) + multiset{f(s[k])}
  {
    assert Without(Mapped(s, f), k) == Mapped(Without(s, k), f);
    WithoutOne(Mapped(s, f), k);
  }

  lemma {:induction false} MappedPermutes<T, U>(s: seq<T>, t: seq<T>, f: T -> U)
    requires multiset(s) == multiset(t)
    ensures multiset(Mapped(s, f)) == multiset(Mapped(t, f))
    decreases |s|
  {
    if s == [] {
      assert |multiset(t)| == 0;
    } else {
      assert s[0] in multiset(t);
      var k :| 0 <= k < |t| && t[k] == s[0];
      WithoutOne(s, 0);
      WithoutOne(t, k);
      MappedPermutes(Without(s, 0), Without(t, k), f);
      MappedWithout(s, 0, f);
      MappedWithout(t, k, f);
    }
  }

  ghost predicate StrictlySorted<T>(s: seq<T>, less: (T, T) -> bool) {
    forall i, j | 0 <= i < j < |s| :: less(s[i], s[j])
  }

  lemma SameHead<T>(a: seq<T>, b: seq<T>, less: (T, T) -> bool)
    requires a != [] && b != [] && multiset(a) == multiset(b) && Sorted(b, less) && StrictlySorted(a, less)
    ensures a[0] == b[0]
  {
    assert a[0] in multiset(b) && b[0] in multiset(a);
    var j :| 0 <= j < |b| && b[j] == a[0];
    var i :| 0 <= i < |a| && a[i] == b[0];
  }

  lemma TailWithout<T>(s: seq<T>)
    requires s != []
    ensures multiset(s[1..]) == multiset(s) - multiset{s[0]}
  {
    assert s == [s[0]] + s[1..];
  }

  lemma SameTails<T>(a: seq<T>, b: seq<T>)
    requires a != [] && b != [] && a[0] == b[0] && multiset(a) == multiset(b)
    ensures multiset(a[1..]) == multiset(b[1..])
  {
    TailWithout(a);
    TailWithout(b);
  }

  /** When every two elements differ in their keys, all outcomes of sorting permutations of them are one. */
  lemma {:induction false} OneOutcome<T>(a: seq<T>, b: seq<T>, less: (T, T) -> bool)
    requires multiset(a) == multiset(b) && Sorted(b, less) && StrictlySorted(a, less)
    ensures a == b
    decreases |a|
  {
    if a == [] || b == [] {
      assert |multiset(a)| == |a| && |multiset(b)| == |b|;
    } else {
      SameHead(a, b, less);
      SameTails(a, b);
      OneOutcome(a[1..], b[1..], less);
      assert a == [a[0]] + a[1..] && b == [b[0]] + b[1..];
    }
  }

  method MapInPlace<T>(a: array<T>, f: T -> T)
    modifies a
    ensures a[..] == Mapped(old(a[..]), f)
  {
    for i := 0 to a.Length
      invariant forall k | 0 <= k < i :: a[k] == f(old(a[k]))
      invariant forall k | i <= k < a.Length :: a[k] == old(a[k])
    {
      a[i] := f(a[i]);
    }
  }

  method SwapBack<T>(a: array<T>, j: nat)
    requires 0 < j < a.Length
    modifies a
    ensures a[j - 1] == old(a[j]) && a[j] == old(a[j - 1])
    ensures forall k | 0 <= k < a.Length && k != j - 1 && k != j :: a[k] == old(a[k])
    ensures multiset(a[..]) == multiset(old(a[..]))
  {
    a[j - 1], a[j] := a[j], a[j - 1];
  }

  /** Sinks the element at `i` to its place among the sorted ones before it. */
  method Insert<T(!new)>(a: array<T>, i: nat, less: (T, T) -> bool)
    requires i < a.Length && Sorted(a[..i], less)
    requires Orders(less) && forall x, y :: !(less(x, y) && less(y, x))
    modifies a
    ensures Sorted(a[..i + 1], less) && multiset(a[..]) == multiset(old(a[..]))
  {
    var j := i;
    while 0 < j && less(a[j], a[j - 1])
      invariant 0 <= j <= i
      invariant forall k, l | 0 <= k < l <= i && l != j && k != j :: !less(a[l], a[k])
      invariant forall l | j < l <= i :: !less(a[l], a[j])
      invariant multiset(a[..]) == multiset(old(a[..]))
    {
      SwapBack(a, j);
      j := j - 1;
    }
    forall k | 0 <= k < j ensures !less(a[j], a[k]) {
      if k < j - 1 {
        assert !less(a[j - 1], a[k]);
      }
    }
  }

  /** Stands for the library's in-place sort, of which only the outcome matters. */
  method SortInPlace<T(!new)>(a: array<T>, less: (T, T) -> bool)
    requires Orders(less) && forall x, y :: !(less(x, y) && less(y, x))
    modifies a
    ensures SortOutcome(old(a[..]), a[..], less)
  {
    for i := 0 to a.Length
      invariant Sorted(a[..i], less)
      invariant multiset(a[..]) == multiset(old(a[..]))
    {
      Insert(a, i, less);
    }
    assert a[..a.Length] == a[..];
  }
}
