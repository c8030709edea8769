/** Sequence helpers shared by the model: an optional value, duplicate-freedom,
    and the two JavaScript array operations the application relies on,
    `filter(x => x !== v)` and `slice(0, end)`. */
module Seqs {

  /** A value that may be missing (JavaScript's `undefined`). */
  datatype Option<T> = None | Some(value: T)

  function Min(a: int, b: int): int { if a <= b then a else b }

  function Max(a: int, b: int): int { if a >= b then a else b }

  /** The set of values that occur in `s`. */
  function Elements<T>(s: seq<T>): set<T> { set x | x in s }

  /** No value occurs twice in `s`. */
  predicate NoDups<T(==)>(s: seq<T>) {
    forall i, j :: 0 <= i < j < |s| ==> s[i] != s[j]
  }

  /** A duplicate-free sequence has one distinct element per position. */
  lemma {:induction false} NoDupsCard<T>(s: seq<T>)
    requires NoDups(s)
    ensures |Elements(s)| == |s|
  {
    if s != [] {
      NoDupsCard(s[1..]);
      assert Elements(s) == {s[0]} + Elements(s[1..]);
      assert s[0] !in Elements(s[1..]);
    }
  }

  /** In a duplicate-free sequence every value has multiplicity at most one. */
  lemma {:induction false} NoDupsMultiplicity<T>(s: seq<T>, x: T)
    requires NoDups(s)
    ensures multiset(s)[x] <= 1
  {
    if s != [] {
      assert s == [s[0]] + s[1..];
      NoDupsMultiplicity(s[1..], x);
      if x == s[0] {
        assert x !in s[1..];
      }
    }
  }

  /** Rearranging a duplicate-free sequence gives a duplicate-free sequence. */
  lemma PermutationKeepsNoDups<T>(a: seq<T>, b: seq<T>)
    requires multiset(a) == multiset(b)
    requires NoDups(a)
    ensures NoDups(b)
  {
    forall i, j | 0 <= i < j < |b|
      ensures b[i] != b[j]
    {
      if b[i] == b[j] {
        assert b == b[..j] + [b[j]] + b[j + 1..];
        assert b[i] in b[..j];
        assert multiset(b)[b[i]] >= 2;
        NoDupsMultiplicity(a, b[i]);
        assert false;
      }
    }
  }

  /** A prefix of a duplicate-free sequence is duplicate-free. */
  lemma PrefixKeepsNoDups<T>(s: seq<T>, n: nat)
    requires NoDups(s)
    requires n <= |s|
    ensures NoDups(s[..n])
  {
  }

  /** `s.filter(y => y !== x)`: every occurrence of `x` removed. */
  function Without<T(==,!new)>(s: seq<T>, x: T): (r: seq<T>)
    ensures forall y :: y in r <==> y in s && y != x
    ensures |r| <= |s|
  {
    if s == [] then []
    else (if s[0] == x then [] else [s[0]]) + Without(s[1..], x)
  }

  /** Filtering distributes over concatenation, so the kept values keep
      their relative order. */
  lemma {:induction false} WithoutConcat<T(!new)>(a: seq<T>, b: seq<T>, x: T)
    ensures Without(a + b, x) == Without(a, x) + Without(b, x)
  {
    if a == [] {
      assert a + b == b;
    } else {
      assert (a + b)[1..] == a[1..] + b;
      WithoutConcat(a[1..], b, x);
    }
  }

  /** Filtering out a value that does not occur changes nothing. */
  lemma {:induction false} WithoutAbsent<T(!new)>(s: seq<T>, x: T)
    requires x !in s
    ensures Without(s, x) == s
  {
    if s != [] {
      WithoutAbsent(s[1..], x);
      assert s == [s[0]] + s[1..];
    }
  }

  /** In a duplicate-free sequence, filtering out the value at position `k`
      deletes exactly that position. */
  lemma {:induction false} WithoutUnique<T(!new)>(s: seq<T>, k: nat)
    requires NoDups(s)
    requires k < |s|
    ensures Without(s, s[k]) == s[..k] + s[k + 1..]
  {
    var x, a, b := s[k], s[..k], s[k + 1..];
    assert s == a + ([x] + b);
    assert x !in a;
    assert x !in b;
    WithoutConcat(a, [x] + b, x);
    WithoutConcat([x], b, x);
    WithoutAbsent(a, x);
    WithoutAbsent(b, x);
    assert Without([x], x) == [];
    calc {
      Without(s, x);
      Without(a, x) + Without([x] + b, x);
      a + (Without([x], x) + Without(b, x));
      a + b;
    }
  }

  /** Filtering keeps a sequence duplicate-free. */
  lemma {:induction false} WithoutKeepsNoDups<T(!new)>(s: seq<T>, x: T)
    requires NoDups(s)
    ensures NoDups(Without(s, x))
  {
    if s != [] {
      WithoutKeepsNoDups(s[1..], x);
      var rest := Without(s[1..], x);
      assert s[0] !in rest;
    }
  }

  /** `s.slice(0, end)`: the prefix of length `end`, where a negative `end`
      counts from the end of `s` and every bound is clamped to `[0, |s|]`. */
  function SliceTo<T>(s: seq<T>, end: int): (r: seq<T>)
    ensures |r| == if end >= 0 then Min(end, |s|) else Max(|s| + end, 0)
    ensures r == s[..|r|]
  {
    if end >= 0 then s[..Min(end, |s|)] else s[..Max(|s| + end, 0)]
  }
}
