/** Duplicates in sequences. */
module Lists {
  import opened Wrappers

  ghost predicate Distinct<T>(s: seq<T>) {
    forall i, j :: 0 <= i < j < |s| ==> s[i] != s[j]
  }

  ghost predicate Apart<T>(a: seq<T>, b: seq<T>) {
    forall i, j :: 0 <= i < |a| && 0 <= j < |b| ==> a[i] != b[j]
  }

  /** Each element once, where it first occurs. */
  function Firsts<T(!new, ==)>(s: seq<T>): (r: seq<T>)
    ensures forall x :: x in r <==> x in s
    ensures Distinct(r)
  {
    if s == [] then []
    else
      var k := |s| - 1;
      assert forall x :: x in s <==> x in s[..k] || x == s[k];
      if s[k] in s[..k] then Firsts(s[..k]) else Firsts(s[..k]) + [s[k]]
  }

  lemma FirstsPush<T(!new)>(s: seq<T>, x: T)
    ensures Firsts(s + [x]) == if x in s then Firsts(s) else Firsts(s) + [x]
  {
    assert (s + [x])[..|s|] == s;
  }

  lemma {:induction false} DistinctSize<T(!new)>(s: seq<T>)
    requires Distinct(s)
    ensures |set x | x in s| == |s|
  {
    if s != [] {
      var k := |s| - 1;
      DistinctSize(s[..k]);
      assert (set x | x in s) == (set x | x in s[..k]) + {s[k]};
    }
  }

  lemma Without<T>(s: seq<T>, j: nat)
    requires j < |s|
    ensures multiset(s[..j] + s[j + 1..]) == multiset(s) - multiset{s[j]}
  {
    var whole := s[..j] + [s[j]] + s[j + 1..];
    assert s == whole;
  }

  /** Where the last element of one list stands in a rearrangement of it. */
  lemma LastIn<T>(a: seq<T>, b: seq<T>) returns (j: nat)
    requires multiset(a) == multiset(b) && a != []
    ensures j < |b| && b[j] == a[|a| - 1] && |a| == |b|
    ensures multiset(a[..|a| - 1]) == multiset(b[..j] + b[j + 1..])
  {
    var k := |a| - 1;
    assert a[k] in multiset(a);
    j :| 0 <= j < |b| && b[j] == a[k];
    Without(b, j);
    Without(a, k);
    assert a[..k] + a[k + 1..] == a[..k];
    assert |multiset(a)| == |a| && |multiset(b)| == |b|;
  }

  lemma NoneIn<T>(b: seq<T>)
    requires multiset(b) == multiset([])
    ensures b == []
  {
    assert |multiset(b)| == |b|;
  }

  /** Position of the first element satisfying `p`. */
  function FirstWhere<T>(s: seq<T>, p: T -> bool): (r: Option<nat>)
    ensures r.Some? ==> r.value < |s| && p(s[r.value])
    ensures forall i :: 0 <= i < (if r.Some? then r.value else |s|) ==> !p(s[i])
  {
    if s == [] then None
    else
      var before := FirstWhere(s[..|s| - 1], p);
      if before.Some? then before else if p(s[|s| - 1]) then Some(|s| - 1) else None
  }

  // ---- lists of lists ----

  function Flatten<T>(lists: seq<seq<T>>): seq<T> {
    if lists == [] then [] else Flatten(lists[..|lists| - 1]) + lists[|lists| - 1]
  }

  lemma FlattenNext<T>(lists: seq<seq<T>>, r: nat)
    requires r < |lists|
    ensures Flatten(lists[..r + 1]) == Flatten(lists[..r]) + lists[r]
  {
    assert lists[..r + 1][..r] == lists[..r];
  }

  lemma {:induction false} FlattenPrefix<T>(lists: seq<seq<T>>, r: nat)
    requires r <= |lists|
    ensures Flatten(lists[..r]) <= Flatten(lists)
    decreases |lists| - r
  {
    if r == |lists| {
      assert lists[..r] == lists;
    } else {
      FlattenNext(lists, r);
      FlattenPrefix(lists, r + 1);
    }
  }

  // ---- in plain terms ----

  /** An element is kept where it is first met. */
  lemma {:induction false} FirstsInOrder<T(!new)>(s: seq<T>, i: nat, j: nat) returns (m: nat, n: nat)
    requires i < j < |Firsts(s)|
    ensures m < n < |s| && s[m] == Firsts(s)[i] && s[n] == Firsts(s)[j]
    ensures Firsts(s)[i] !in s[..m] && Firsts(s)[j] !in s[..n]
  {
    var k := |s| - 1;
    if j < |Firsts(s[..k])| {
      m, n := FirstsInOrder(s[..k], i, j);
      assert s[..k][..m] == s[..m] && s[..k][..n] == s[..n];
    } else {
      n := k;
      m := FirstPlace(s[..k], Firsts(s)[i]);
      assert s[..k][..m] == s[..m];
    }
  }

  lemma {:induction false} FirstPlace<T(!new)>(s: seq<T>, x: T) returns (m: nat)
    requires x in s
    ensures m < |s| && s[m] == x && x !in s[..m]
  {
    var k := |s| - 1;
    assert s == s[..k] + [s[k]];
    if x in s[..k] {
      m := FirstPlace(s[..k], x);
      assert s[..k][..m] == s[..m];
    } else {
      m := k;
    }
  }
}
