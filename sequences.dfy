/** Sequence operations shared by the store (`Array.prototype.filter` over the
    values of a map) and the submission form (filtering rows, removing a row). */
module Sequences {
  import opened Wrappers

  /** `a` is obtained from `b` by deleting elements, keeping the order of the rest. */
  ghost predicate IsSubsequence<T>(a: seq<T>, b: seq<T>)
    decreases |b|
  {
    a == [] || (b != [] && ((a[0] == b[0] && IsSubsequence(a[1..], b[1..])) || IsSubsequence(a, b[1..])))
  }

  /** `Array.prototype.filter`: the elements satisfying `p`, in their original order. */
  function Filter<T>(s: seq<T>, p: T -> bool): (r: seq<T>)
    ensures |r| <= |s|
    ensures forall i :: 0 <= i < |r| ==> r[i] in s && p(r[i])
    ensures forall i :: 0 <= i < |s| && p(s[i]) ==> s[i] in r
    ensures IsSubsequence(r, s)
    decreases |s|
  {
    if s == [] then []
    else if p(s[0]) then [s[0]] + Filter(s[1..], p)
    else Filter(s[1..], p)
  }

  /** Filter keeps every occurrence of a selected value and drops every
      occurrence of a rejected one. */
  lemma {:induction false} FilterMultiplicity<T>(s: seq<T>, p: T -> bool, x: T)
    ensures multiset(Filter(s, p))[x] == if p(x) then multiset(s)[x] else 0
    decreases |s|
  {
    if s != [] {
      FilterMultiplicity(s[1..], p, x);
      assert s == [s[0]] + s[1..];
    }
  }

  /** When every element is selected, filtering changes nothing. */
  lemma {:induction false} FilterAll<T>(s: seq<T>, p: T -> bool)
    requires forall i :: 0 <= i < |s| ==> p(s[i])
    ensures Filter(s, p) == s
    decreases |s|
  {
    if s != [] {
      FilterAll(s[1..], p);
    }
  }

  /** Nothing is selected exactly when no element satisfies the predicate. */
  lemma {:induction false} FilterEmptyIff<T>(s: seq<T>, p: T -> bool)
    ensures Filter(s, p) == [] <==> forall i :: 0 <= i < |s| ==> !p(s[i])
    decreases |s|
  {
    if s != [] {
      FilterEmptyIff(s[1..], p);
      if !p(s[0]) {
        forall i | 0 <= i < |s| && Filter(s, p) == [] ensures !p(s[i]) {
          if i > 0 {
            assert s[i] == s[1..][i - 1];
          }
        }
      }
    }
  }

  /** `s.filter((_, i) => i !== index)`: the element at `index` is dropped;
      an index outside the sequence drops nothing. */
  function RemoveIndex<T>(s: seq<T>, index: int): (r: seq<T>)
    ensures 0 <= index < |s| ==> |r| == |s| - 1
    ensures !(0 <= index < |s|) ==> r == s
    ensures 0 <= index < |s| ==> forall j :: 0 <= j < |r| ==> r[j] == if j < index then s[j] else s[j + 1]
  {
    if 0 <= index < |s| then s[..index] + s[index + 1..] else s
  }

  /** Removing an element leaves exactly the other elements, in order. */
  lemma RemoveIndexIsSubsequence<T>(s: seq<T>, index: int)
    requires 0 <= index < |s|
    ensures multiset(RemoveIndex(s, index)) + multiset{s[index]} == multiset(s)
    ensures IsSubsequence(RemoveIndex(s, index), s)
  {
    var a, b := s[..index], s[index + 1..];
    assert s == a + [s[index]] + b;
    assert RemoveIndex(s, index) == a + b;
    SplitMultiset(a, s[index], b);
    PrefixSkipIsSubsequence(a, s[index], b);
  }

  lemma SplitMultiset<T>(a: seq<T>, x: T, b: seq<T>)
    ensures multiset(a + b) + multiset{x} == multiset(a + [x] + b)
  {
    calc {
      multiset(a + [x] + b);
      multiset(a + [x]) + multiset(b);
      multiset(a) + multiset{x} + multiset(b);
      multiset(a + b) + multiset{x};
    }
  }

  /** Skipping one element between a prefix and a suffix yields a subsequence. */
  lemma {:induction false} PrefixSkipIsSubsequence<T>(a: seq<T>, x: T, b: seq<T>)
    ensures IsSubsequence(a + b, a + [x] + b)
    decreases |a|
  {
    if a == [] {
      assert a + [x] + b == [x] + b;
      assert ([x] + b)[1..] == b;
      assert a + b == b;
      SubsequenceReflexive(b);
    } else {
      PrefixSkipIsSubsequence(a[1..], x, b);
      assert (a + b)[1..] == a[1..] + b;
      assert (a + [x] + b)[1..] == a[1..] + [x] + b;
    }
  }

  lemma {:induction false} SubsequenceReflexive<T>(s: seq<T>)
    ensures IsSubsequence(s, s)
    decreases |s|
  {
    if s != [] {
      SubsequenceReflexive(s[1..]);
    }
  }

  /** The position of the element `Find` returns. */
  lemma FindIndex<T>(s: seq<T>, p: T -> bool) returns (i: nat)
    requires Find(s, p).Some?
    ensures i < |s| && s[i] == Find(s, p).value && p(s[i])
    ensures forall j :: 0 <= j < i ==> !p(s[j])
  {
    i :| 0 <= i < |s| && s[i] == Find(s, p).value && p(s[i]) && forall j :: 0 <= j < i ==> !p(s[j]);
  }

  /** `Array.prototype.find`: the first element satisfying `p`, if any. */
  function Find<T>(s: seq<T>, p: T -> bool): (r: Option<T>)
    ensures r.None? <==> forall i :: 0 <= i < |s| ==> !p(s[i])
    ensures r.Some? ==> exists i :: (0 <= i < |s| && s[i] == r.value && p(s[i])
                                     && forall j :: 0 <= j < i ==> !p(s[j]))
    decreases |s|
  {
    if s == [] then None
    else if p(s[0]) then Some(s[0])
    else
      var r := Find(s[1..], p);
      assert r.Some? ==> exists i :: (0 <= i < |s| && s[i] == r.value && p(s[i])
                                      && forall j :: 0 <= j < i ==> !p(s[j])) by {
        if r.Some? {
          var i :| 0 <= i < |s[1..]| && s[1..][i] == r.value && p(s[1..][i])
            && forall j :: 0 <= j < i ==> !p(s[1..][j]);
          assert forall j :: 0 <= j < i + 1 ==> !p(s[j]) by {
            forall j | 0 <= j < i + 1 ensures !p(s[j]) {
              if j > 0 { assert s[j] == s[1..][j - 1]; }
            }
          }
        }
      }
      r
  }

  /** `s` is strictly increasing. */
  ghost predicate Ascending(s: seq<int>) {
    forall i, j :: 0 <= i < j < |s| ==> s[i] < s[j]
  }

  /** Filtering keeps a strictly increasing sequence strictly increasing. */
  lemma {:induction false} FilterAscending(s: seq<int>, p: int -> bool)
    requires Ascending(s)
    ensures Ascending(Filter(s, p))
    decreases |s|
  {
    if s != [] {
      var tail := s[1..];
      assert Ascending(tail) by {
        forall i, j | 0 <= i < j < |tail| ensures tail[i] < tail[j] {
          assert tail[i] == s[i + 1] && tail[j] == s[j + 1];
        }
      }
      FilterAscending(tail, p);
      var t := Filter(tail, p);
      assert forall k :: 0 <= k < |t| ==> s[0] < t[k] by {
        forall k | 0 <= k < |t| ensures s[0] < t[k] {
          assert t[k] in tail;
          var m :| 0 <= m < |tail| && tail[m] == t[k];
          assert s[m + 1] == t[k];
        }
      }
      if p(s[0]) {
        AscendingCons(s[0], t);
      }
    }
  }

  lemma AscendingCons(x: int, t: seq<int>)
    requires Ascending(t)
    requires forall k :: 0 <= k < |t| ==> x < t[k]
    ensures Ascending([x] + t)
  {
    var r := [x] + t;
    forall i, j | 0 <= i < j < |r| ensures r[i] < r[j] {
      assert r[j] == t[j - 1];
      if i > 0 {
        assert r[i] == t[i - 1];
      }
    }
  }
}
