/**
 * The JavaScript array operations the server relies on, as functions on
 * sequences: `Array.prototype.filter`, `Array.prototype.find` (as the index
 * of the first hit) and duplicate-freedom of an id list.
 */
module SeqUtil {
  import opened Wrappers

  /** No element occurs twice. */
  ghost predicate NoDup<T>(s: seq<T>) {
    forall i, j :: 0 <= i < j < |s| ==> s[i] != s[j]
  }

  /** `s.filter(p)`: the elements satisfying `p`, in their original order. */
  function Filter<T>(s: seq<T>, p: T -> bool): (r: seq<T>)
    ensures |r| <= |s|
    ensures forall i :: 0 <= i < |r| ==> r[i] in s && p(r[i])
    ensures forall i :: 0 <= i < |s| && p(s[i]) ==> s[i] in r
  {
    if s == [] then []
    else if p(s[0]) then [s[0]] + Filter(s[1..], p)
    else Filter(s[1..], p)
  }

  /** `s.findIndex(p)`, with "not found" as `None`: the first position satisfying `p`. */
  function FindIndex<T>(s: seq<T>, p: T -> bool): (r: Option<nat>)
    ensures r.Some? ==> r.value < |s| && p(s[r.value])
    ensures r.Some? ==> forall k :: 0 <= k < r.value ==> !p(s[k])
    ensures r.None? ==> forall k :: 0 <= k < |s| ==> !p(s[k])
  {
    if s == [] then None
    else if p(s[0]) then Some(0)
    else match FindIndex(s[1..], p)
      case None => None
      case Some(i) => Some(i + 1)
  }

  /** Filtering distributes over concatenation: the kept elements keep their order. */
  lemma {:induction false} FilterConcat<T>(a: seq<T>, b: seq<T>, p: T -> bool)
    ensures Filter(a + b, p) == Filter(a, p) + Filter(b, p)
  {
    if a == [] {
      assert a + b == b;
    } else {
      assert (a + b)[0] == a[0];
      assert (a + b)[1..] == a[1..] + b;
      FilterConcat(a[1..], b, p);
    }
  }

  /** A filter that rejects nothing is the identity. */
  lemma {:induction false} FilterKeepsAll<T>(s: seq<T>, p: T -> bool)
    requires forall x :: x in s ==> p(x)
    ensures Filter(s, p) == s
  {
    if s != [] {
      assert s[0] in s;
      assert forall x :: x in s[1..] ==> x in s;
      FilterKeepsAll(s[1..], p);
    }
  }

  /** Filtering twice with the same predicate is filtering once. */
  lemma FilterIdempotent<T>(s: seq<T>, p: T -> bool)
    ensures Filter(Filter(s, p), p) == Filter(s, p)
  {
    FilterKeepsAll(Filter(s, p), p);
  }

  /** How many times each element survives a filter. */
  lemma {:induction false} FilterMultiset<T>(s: seq<T>, p: T -> bool, x: T)
    ensures multiset(Filter(s, p))[x] == if p(x) then multiset(s)[x] else 0
  {
    if s != [] {
      assert s == [s[0]] + s[1..];
      assert multiset(s) == multiset([s[0]]) + multiset(s[1..]);
      FilterMultiset(s[1..], p, x);
      if p(s[0]) {
        assert multiset(Filter(s, p)) == multiset([s[0]]) + multiset(Filter(s[1..], p));
      }
    }
  }

  /** A filtered duplicate-free sequence is duplicate-free. */
  lemma {:induction false} FilterNoDup<T>(s: seq<T>, p: T -> bool)
    requires NoDup(s)
    ensures NoDup(Filter(s, p))
  {
    if s != [] {
      assert NoDup(s[1..]) by {
        forall i, j | 0 <= i < j < |s[1..]| ensures s[1..][i] != s[1..][j] {
          assert s[1..][i] == s[i + 1] && s[1..][j] == s[j + 1];
        }
      }
      FilterNoDup(s[1..], p);
      if p(s[0]) {
        var t := Filter(s[1..], p);
        assert s[0] !in s[1..] by {
          forall k | 0 <= k < |s[1..]| ensures s[1..][k] != s[0] {
            assert s[1..][k] == s[k + 1];
          }
        }
        assert s[0] !in t;
        var r := [s[0]] + t;
        forall i, j | 0 <= i < j < |r| ensures r[i] != r[j] {
          if i == 0 {
            assert r[j] == t[j - 1];
          } else {
            assert r[i] == t[i - 1] && r[j] == t[j - 1];
          }
        }
      }
    }
  }

  /** `s.filter(y => y !== x)`: every occurrence of `x` removed. */
  function Without<T(==)>(s: seq<T>, x: T): (r: seq<T>)
    ensures forall i :: 0 <= i < |r| ==> r[i] in s && r[i] != x
    ensures forall i :: 0 <= i < |s| && s[i] != x ==> s[i] in r
    ensures x !in s ==> r == s
    ensures multiset(r) == multiset(s)[x := 0]
  {
    var p := (y: T) => y != x;
    if x !in s then
      FilterKeepsAll(s, p); Filter(s, p)
    else
      WithoutMultiset(s, x, p); Filter(s, p)
  }

  /** Helper for `Without`: the multiset of the filtered sequence, element by element. */
  lemma WithoutMultiset<T>(s: seq<T>, x: T, p: T -> bool)
    requires forall y :: p(y) == (y != x)
    ensures multiset(Filter(s, p)) == multiset(s)[x := 0]
  {
    forall y ensures multiset(Filter(s, p))[y] == multiset(s)[x := 0][y] {
      FilterMultiset(s, p, y);
    }
  }

  /** `Without` element by element from the front. */
  lemma WithoutCons<T>(y: T, s: seq<T>, x: T)
    ensures Without([y] + s, x) == (if y != x then [y] else []) + Without(s, x)
  {
    assert ([y] + s)[0] == y;
    assert ([y] + s)[1..] == s;
  }

  /** Removing an element keeps a sequence duplicate-free. */
  lemma WithoutNoDup<T>(s: seq<T>, x: T)
    requires NoDup(s)
    ensures NoDup(Without(s, x))
  {
    FilterNoDup(s, (y: T) => y != x);
  }

  /** Appending an element and then removing it gives back any sequence that lacked it. */
  lemma AppendThenWithout<T>(s: seq<T>, x: T)
    requires x !in s
    ensures Without(s + [x], x) == s
  {
    var p := (y: T) => y != x;
    FilterConcat(s, [x], p);
    FilterKeepsAll(s, p);
    assert Filter([x], p) == [];
  }
}
