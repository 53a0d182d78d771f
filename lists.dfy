/** The parts of Python's `list` that the relay relies on. */
module Lists {

  /** No element occurs twice. */
  predicate NoDup<T(==)>(s: seq<T>) {
    forall i, j :: 0 <= i < j < |s| ==> s[i] != s[j]
  }

  /** The position of the first occurrence of `x` (Python's `s.index(x)`). */
  function Find<T(==)>(s: seq<T>, x: T): (i: nat)
    requires x in s
    ensures i < |s| && s[i] == x
    ensures x !in s[..i]
  {
    if s[0] == x then 0 else 1 + Find(s[1..], x)
  }

  /** `Find` is the only position with its two defining properties. */
  lemma {:induction false} FindIs<T>(s: seq<T>, x: T, i: nat)
    requires i < |s| && s[i] == x && x !in s[..i]
    ensures Find(s, x) == i
  {
    if i > 0 {
      assert s[0] == s[..i][0];
      assert s[1..][..i - 1] == s[..i][1..];
      FindIs(s[1..], x, i - 1);
    }
  }

  /** `s.remove(x)`: drops the first occurrence of `x`. Python raises
      `ValueError` when `x` is absent; the relay only calls it after an
      `x in s` test, hence the precondition. */
  function RemoveFirst<T(==)>(s: seq<T>, x: T): seq<T>
    requires x in s
  {
    var i := Find(s, x);
    s[..i] + s[i + 1..]
  }

  /** Every element of `s` other than `x`, in order: an independent
      description of "the list without `x`". */
  function Without<T(==,!new)>(s: seq<T>, x: T): (r: seq<T>)
    ensures forall y :: y in r <==> y in s && y != x
    ensures x !in s ==> r == s
  {
    if s == [] then []
    else if s[0] == x then Without(s[1..], x)
    else [s[0]] + Without(s[1..], x)
  }

  lemma {:induction false} WithoutConcat<T(!new)>(a: seq<T>, b: seq<T>, x: T)
    ensures Without(a + b, x) == Without(a, x) + Without(b, x)
  {
    if a != [] {
      var ab := a + b;
      assert ab[0] == a[0] && ab[1..] == a[1..] + b;
      WithoutConcat(a[1..], b, x);
      if a[0] == x {
        assert Without(ab, x) == Without(a[1..] + b, x);
      } else {
        assert Without(ab, x) == [a[0]] + Without(a[1..] + b, x);
      }
    } else {
      assert a + b == b;
    }
  }

  /** Dropping one position keeps a list free of repetitions. */
  lemma NoDupRemoveAt<T>(s: seq<T>, i: nat)
    requires NoDup(s) && i < |s|
    ensures NoDup(s[..i] + s[i + 1..])
  {
    var r := s[..i] + s[i + 1..];
    forall a, b | 0 <= a < b < |r| ensures r[a] != r[b] {
      var a', b' := if a < i then a else a + 1, if b < i then b else b + 1;
      assert r[a] == s[a'] && r[b] == s[b'];
    }
  }

  /** On a list without repetitions, removing the first occurrence removes
      every occurrence. */
  lemma RemoveFirstOfNoDup<T(!new)>(s: seq<T>, x: T)
    requires NoDup(s) && x in s
    ensures RemoveFirst(s, x) == Without(s, x)
  {
    var i := Find(s, x);
    var before, after := s[..i], s[i + 1..];
    var rest := [x] + after;
    assert s == before + rest;
    assert x !in after by {
      forall j | 0 <= j < |after| ensures after[j] != x {
        assert after[j] == s[i + 1 + j] && s[i] == x;
      }
    }
    assert rest[1..] == after;
    assert Without(rest, x) == after;
    assert Without(before, x) == before;
    WithoutConcat(before, rest, x);
  }
}
