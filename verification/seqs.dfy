/** Generic facts about sequences: filtering, first/last positions, flattening. */
module Seqs {

  /** No element occurs twice. */
  predicate Distinct<T(==)>(s: seq<T>) {
    forall i, j :: 0 <= i < j < |s| ==> s[i] != s[j]
  }

  /** The elements of `s` that satisfy `p`, in their original order
      (a list comprehension with an `if` filter). */
  function Keep<T(==)>(s: seq<T>, p: T -> bool): (r: seq<T>)
    ensures |r| <= |s|
    ensures forall i :: 0 <= i < |r| ==> r[i] in s && p(r[i])
  {
    if s == [] then []
    else (if p(s[0]) then [s[0]] else []) + Keep(s[1..], p)
  }

  /** Filtering keeps only elements of the input. */
  lemma {:induction false} KeepSound<T>(s: seq<T>, p: T -> bool, x: T)
    requires x in Keep(s, p)
    ensures x in s && p(x)
  {
    if s[0] != x {
      if p(s[0]) {
        assert x in Keep(s[1..], p);
      }
      KeepSound(s[1..], p, x);
    }
  }

  /** Every element that passes the test survives filtering. */
  lemma {:induction false} KeepContains<T>(s: seq<T>, p: T -> bool, x: T)
    requires x in s && p(x)
    ensures x in Keep(s, p)
  {
    if s[0] != x {
      KeepContains(s[1..], p, x);
    }
  }

  /** Filtering drops everything when nothing passes the test. */
  lemma {:induction false} KeepNone<T>(s: seq<T>, p: T -> bool)
    requires forall i :: 0 <= i < |s| ==> !p(s[i])
    ensures Keep(s, p) == []
  {
    if s != [] {
      assert forall i :: 0 <= i < |s[1..]| ==> !p(s[1..][i]) by {
        forall i | 0 <= i < |s[1..]| ensures !p(s[1..][i]) {
          assert s[1..][i] == s[i + 1];
        }
      }
      KeepNone(s[1..], p);
    }
  }

  /** Filtering distributes over concatenation. */
  lemma {:induction false} KeepConcat<T>(a: seq<T>, b: seq<T>, p: T -> bool)
    ensures Keep(a + b, p) == Keep(a, p) + Keep(b, p)
  {
    if a == [] {
      assert a + b == b;
    } else {
      assert (a + b)[1..] == a[1..] + b;
      KeepConcat(a[1..], b, p);
    }
  }

  /** Position of the first occurrence of `x` in `s`. */
  function IndexOf<T(==)>(s: seq<T>, x: T): (i: nat)
    requires x in s
    ensures i < |s| && s[i] == x
    ensures forall j :: 0 <= j < i ==> s[j] != x
  {
    if s[0] == x then 0 else 1 + IndexOf(s[1..], x)
  }

  /** Position of the last occurrence of `x` in `s`. */
  function LastIndexOf<T(==)>(s: seq<T>, x: T): (i: nat)
    requires x in s
    ensures i < |s| && s[i] == x
    ensures forall j :: i < j < |s| ==> s[j] != x
  {
    if s[|s| - 1] == x then |s| - 1 else LastIndexOf(s[..|s| - 1], x)
  }

  /** The concatenation of all the sequences in `ss`, in order. */
  function Flatten<T>(ss: seq<seq<T>>): seq<T> {
    if ss == [] then [] else ss[0] + Flatten(ss[1..])
  }

  predicate StrictlyIncreasing(idx: seq<nat>) {
    forall i, j :: 0 <= i < j < |idx| ==> idx[i] < idx[j]
  }

  /** Filtering keeps every element that passes the test and only those. */
  lemma {:induction false} KeepAll<T>(s: seq<T>, p: T -> bool)
    requires forall i :: 0 <= i < |s| ==> p(s[i])
    ensures Keep(s, p) == s
  {
    if s != [] {
      assert forall i :: 0 <= i < |s[1..]| ==> p(s[1..][i]) by {
        forall i | 0 <= i < |s[1..]| ensures p(s[1..][i]) {
          assert s[1..][i] == s[i + 1];
        }
      }
      KeepAll(s[1..], p);
      assert [s[0]] + s[1..] == s;
    }
  }

  /** Filtering a duplicate-free sequence yields a duplicate-free sequence. */
  lemma {:induction false} KeepDistinct<T>(s: seq<T>, p: T -> bool)
    requires Distinct(s)
    ensures Distinct(Keep(s, p))
  {
    if s != [] {
      assert Distinct(s[1..]) by {
        forall i, j | 0 <= i < j < |s[1..]| ensures s[1..][i] != s[1..][j] {
          assert s[1..][i] == s[i + 1] && s[1..][j] == s[j + 1];
        }
      }
      KeepDistinct(s[1..], p);
      assert s[0] !in s[1..] by {
        forall j | 0 <= j < |s[1..]| ensures s[1..][j] != s[0] {
          assert s[1..][j] == s[j + 1];
        }
      }
    }
  }

  /** Filtering is a subsequence: the kept elements are the elements at strictly increasing
      positions `idx` of `s`. */
  lemma {:induction false} KeepIndices<T>(s: seq<T>, p: T -> bool) returns (idx: seq<nat>)
    ensures |idx| == |Keep(s, p)|
    ensures StrictlyIncreasing(idx)
    ensures forall k :: 0 <= k < |idx| ==> idx[k] < |s| && Keep(s, p)[k] == s[idx[k]]
  {
    if s == [] {
      idx := [];
    } else {
      var rest := KeepIndices(s[1..], p);
      var shifted := Shift(s, p, rest);
      if p(s[0]) {
        idx := KeepIndicesHead(s, p, shifted);
      } else {
        idx := shifted;
        assert Keep(s, p) == Keep(s[1..], p);
      }
    }
  }

  /** The step of `KeepIndices` when the first element is kept. */
  lemma {:induction false} KeepIndicesHead<T>(s: seq<T>, p: T -> bool, shifted: seq<nat>) returns (idx: seq<nat>)
    requires s != [] && p(s[0])
    requires |shifted| == |Keep(s[1..], p)| && StrictlyIncreasing(shifted)
    requires forall k :: 0 <= k < |shifted| ==> 1 <= shifted[k] < |s| && Keep(s[1..], p)[k] == s[shifted[k]]
    ensures |idx| == |Keep(s, p)|
    ensures StrictlyIncreasing(idx)
    ensures forall k :: 0 <= k < |idx| ==> idx[k] < |s| && Keep(s, p)[k] == s[idx[k]]
  {
    var tail := Keep(s[1..], p);
    idx := [0] + shifted;
    assert Keep(s, p) == [s[0]] + tail;
    ConsIncreasing(shifted);
    forall k | 0 <= k < |idx| ensures idx[k] < |s| && Keep(s, p)[k] == s[idx[k]] {
      if k > 0 {
        assert idx[k] == shifted[k - 1] && Keep(s, p)[k] == tail[k - 1];
      }
    }
  }

  lemma {:induction false} ConsIncreasing(s: seq<nat>)
    requires StrictlyIncreasing(s)
    requires forall k :: 0 <= k < |s| ==> 1 <= s[k]
    ensures StrictlyIncreasing([0] + s)
  {
    forall i, j | 0 <= i < j < |[0] + s| ensures ([0] + s)[i] < ([0] + s)[j] {
      assert ([0] + s)[j] == s[j - 1];
    }
  }

  /** The positions `rest` of the kept elements of `s[1..]`, moved to positions of `s`. */
  lemma {:induction false} Shift<T>(s: seq<T>, p: T -> bool, rest: seq<nat>) returns (shifted: seq<nat>)
    requires s != []
    requires |rest| == |Keep(s[1..], p)| && StrictlyIncreasing(rest)
    requires forall k :: 0 <= k < |rest| ==> rest[k] < |s[1..]| && Keep(s[1..], p)[k] == s[1..][rest[k]]
    ensures |shifted| == |rest| && StrictlyIncreasing(shifted)
    ensures forall k :: 0 <= k < |shifted| ==> 1 <= shifted[k] < |s| && Keep(s[1..], p)[k] == s[shifted[k]]
  {
    shifted := seq(|rest|, k requires 0 <= k < |rest| => rest[k] + 1);
  }

  /** In a duplicate-free sequence the first occurrence of `s[k]` is at `k`. */
  lemma {:induction false} IndexOfDistinct<T>(s: seq<T>, k: nat)
    requires Distinct(s) && k < |s|
    ensures IndexOf(s, s[k]) == k
  {
  }

  /** Filtering a duplicate-free sequence keeps the relative order of the kept elements. */
  lemma {:induction false} KeepOrder<T>(s: seq<T>, p: T -> bool)
    requires Distinct(s)
    ensures forall i, j :: 0 <= i < j < |Keep(s, p)| ==>
              IndexOf(s, Keep(s, p)[i]) < IndexOf(s, Keep(s, p)[j])
  {
    var r := Keep(s, p);
    var idx := KeepIndices(s, p);
    forall i, j | 0 <= i < j < |r| ensures IndexOf(s, r[i]) < IndexOf(s, r[j]) {
      IndexOfDistinct(s, idx[i]);
      IndexOfDistinct(s, idx[j]);
    }
  }

  /** Appending an element does not move the first occurrence of an element already present. */
  lemma {:induction false} IndexOfAppend<T>(s: seq<T>, x: T, y: T)
    requires y in s
    ensures IndexOf(s + [x], y) == IndexOf(s, y)
  {
    var i := IndexOf(s, y);
    var i' := IndexOf(s + [x], y);
    assert (s + [x])[i] == y;
    assert s[i'] == y by { assert i' <= i; }
  }

  /** Appending an element that is new puts its first occurrence at the end. */
  lemma {:induction false} IndexOfAppendNew<T>(s: seq<T>, x: T)
    requires x !in s
    ensures IndexOf(s + [x], x) == |s|
  {
    assert forall j :: 0 <= j < |s| ==> (s + [x])[j] == s[j];
  }

  /** Flattening distributes over concatenation. */
  lemma {:induction false} FlattenConcat<T>(a: seq<seq<T>>, b: seq<seq<T>>)
    ensures Flatten(a + b) == Flatten(a) + Flatten(b)
  {
    if a == [] {
      assert a + b == b;
    } else {
      assert (a + b)[1..] == a[1..] + b;
      FlattenConcat(a[1..], b);
    }
  }

  /** Appending an element other than `y` does not move the last occurrence of `y`. */
  lemma {:induction false} LastIndexOfAppend<T>(s: seq<T>, x: T, y: T)
    requires y in s && y != x
    ensures LastIndexOf(s + [x], y) == LastIndexOf(s, y)
  {
    assert (s + [x])[..|s|] == s;
  }

  /** Two duplicate-free sequences with no element in common concatenate to a duplicate-free one. */
  lemma {:induction false} DistinctConcat<T>(a: seq<T>, b: seq<T>)
    requires Distinct(a) && Distinct(b)
    requires forall i, j :: 0 <= i < |a| && 0 <= j < |b| ==> a[i] != b[j]
    ensures Distinct(a + b)
  {
    forall i, j | 0 <= i < j < |a + b| ensures (a + b)[i] != (a + b)[j] {
      if j < |a| {
        assert (a + b)[i] == a[i] && (a + b)[j] == a[j];
      } else if i < |a| {
        assert (a + b)[i] == a[i] && (a + b)[j] == b[j - |a|];
      } else {
        assert (a + b)[i] == b[i - |a|] && (a + b)[j] == b[j - |a|];
      }
    }
  }
}
