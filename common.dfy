/** Shared vocabulary: optional values, results, 0/1 labels and order-preserving filters. */
module Common {

  datatype Option<+T> = None | Some(value: T)

  /** A value, or the error that the source raises instead of producing it. */
  datatype Result<+T, +E> = Success(value: T) | Failure(error: E)

  /** A class label or a prediction: 0 is benign/normal, 1 is malicious/anomalous. */
  type Bit = b: int | 0 <= b <= 1

  function Min(a: nat, b: nat): (m: nat)
    ensures m <= a && m <= b && (m == a || m == b)
  {
    if a <= b then a else b
  }

  function Elements<T>(s: seq<T>): set<T>
  {
    set x | x in s
  }

  /** True when s is obtained from t by deleting elements, keeping the order of the rest. */
  predicate IsSubsequence<T(==)>(s: seq<T>, t: seq<T>)
    decreases |t|
  {
    s == [] || (t != [] && if s[0] == t[0] then IsSubsequence(s[1..], t[1..]) else IsSubsequence(s, t[1..]))
  }

  /**
   * The elements of s that belong to keep, in their order in s (a Python list comprehension
   * `[x for x in s if x in keep]`). Every occurrence of a kept element survives, repeats
   * included, so being a subsequence of s with these multiplicities determines r.
   */
  function Keep<T(==,!new)>(s: seq<T>, keep: set<T>): (r: seq<T>)
    ensures forall x :: x in r <==> x in s && x in keep
    ensures forall x :: multiset(r)[x] == if x in keep then multiset(s)[x] else 0
    ensures IsSubsequence(r, s)
    ensures (forall x :: x in s ==> x in keep) ==> r == s
    ensures (forall x :: x in s ==> x !in keep) ==> r == []
  {
    if s == [] then []
    else
      assert s == [s[0]] + s[1..];
      if s[0] in keep then [s[0]] + Keep(s[1..], keep)
      else Keep(s[1..], keep)
  }

  /** The elements of s that do not belong to drop, in their order in s (`[x for x in s if x not in drop]`). */
  function Drop<T(==,!new)>(s: seq<T>, drop: set<T>): (r: seq<T>)
    ensures forall x :: x in r <==> x in s && x !in drop
    ensures IsSubsequence(r, s)
    ensures (forall x :: x in s ==> x !in drop) ==> r == s
  {
    if s == [] then []
    else if s[0] in drop then Drop(s[1..], drop)
    else [s[0]] + Drop(s[1..], drop)
  }

  lemma ConcatAssoc<T>(a: seq<T>, b: seq<T>, c: seq<T>)
    ensures (a + b) + c == a + (b + c)
  {
  }

  lemma {:induction false} DropConcat<T(!new)>(a: seq<T>, b: seq<T>, drop: set<T>)
    ensures Drop(a + b, drop) == Drop(a, drop) + Drop(b, drop)
  {
    if a != [] {
      var ab := a + b;
      assert ab[0] == a[0] && ab[1..] == a[1..] + b;
      DropConcat(a[1..], b, drop);
      if a[0] !in drop {
        ConcatAssoc([a[0]], Drop(a[1..], drop), Drop(b, drop));
      }
    } else {
      assert a + b == b;
    }
  }

  lemma {:induction false} DropTwice<T(!new)>(s: seq<T>, first: set<T>, second: set<T>)
    ensures Drop(Drop(s, first), second) == Drop(s, first + second)
  {
    if s != [] {
      DropTwice(s[1..], first, second);
      if s[0] !in first && s[0] !in second {
        assert Drop(s, first) == [s[0]] + Drop(s[1..], first);
        assert Drop(s, first)[0] == s[0];
        assert Drop(s, first)[1..] == Drop(s[1..], first);
      }
    }
  }
}
