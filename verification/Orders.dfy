/** Total orders, Python's lexicographic comparison of strings and lists, and `sorted`. */
module Orders {

  ghost predicate TotalOrder<T(!new)>(le: (T, T) -> bool) {
    && (forall x :: le(x, x))
    && (forall x, y :: le(x, y) && le(y, x) ==> x == y)
    && (forall x, y, z :: le(x, y) && le(y, z) ==> le(x, z))
    && (forall x, y :: le(x, y) || le(y, x))
  }

  /** Strictly ascending, hence duplicate free. */
  ghost predicate Ascending<T(!new)>(le: (T, T) -> bool, s: seq<T>) {
    forall i, j :: 0 <= i < j < |s| ==> le(s[i], s[j]) && s[i] != s[j]
  }

  // ---- sorted(set) ----

  predicate LeastOf<T(!new, ==)>(le: (T, T) -> bool, m: T, s: set<T>) {
    m in s && forall y :: y in s ==> le(m, y)
  }

  lemma {:induction false} LeastExists<T(!new)>(le: (T, T) -> bool, s: set<T>)
    requires TotalOrder(le) && s != {}
    ensures exists m :: LeastOf(le, m, s)
    decreases |s|
  {
    var x :| x in s;
    var rest := s - {x};
    if rest == {} {
      assert s == {x};
      assert LeastOf(le, x, s);
    } else {
      LeastExists(le, rest);
      var r :| LeastOf(le, r, rest);
      var m := if le(x, r) then x else r;
      forall y | y in s ensures le(m, y) {
        if y != x { assert y in rest && le(r, y); }
      }
      assert LeastOf(le, m, s);
    }
  }

  function Least<T(!new, ==)>(le: (T, T) -> bool, s: set<T>): (m: T)
    requires TotalOrder(le) && s != {}
    ensures m in s && forall y :: y in s ==> le(m, y)
  {
    LeastExists(le, s);
    var m :| LeastOf(le, m, s);
    m
  }

  /** Python's `sorted` of a set. */
  function Sorted<T(!new, ==)>(le: (T, T) -> bool, s: set<T>): (r: seq<T>)
    requires TotalOrder(le)
    ensures Ascending(le, r)
    ensures forall x :: x in r <==> x in s
    ensures |r| == |s|
  {
    if s == {} then []
    else
      var m := Least(le, s);
      [m] + Sorted(le, s - {m})
  }

  // ---- lexicographic order ----

  predicate LexLE<T(==)>(le: (T, T) -> bool, a: seq<T>, b: seq<T>) {
    if a == [] then true
    else if b == [] then false
    else if a[0] == b[0] then LexLE(le, a[1..], b[1..])
    else le(a[0], b[0])
  }

  lemma {:induction false} LexRefl<T>(le: (T, T) -> bool, a: seq<T>)
    ensures LexLE(le, a, a)
  {
    if a != [] { LexRefl(le, a[1..]); }
  }

  lemma {:induction false} LexAntisym<T(!new)>(le: (T, T) -> bool, a: seq<T>, b: seq<T>)
    requires TotalOrder(le) && LexLE(le, a, b) && LexLE(le, b, a)
    ensures a == b
  {
    if a != [] && b != [] {
      LexAntisym(le, a[1..], b[1..]);
      assert a == [a[0]] + a[1..] && b == [b[0]] + b[1..];
    }
  }

  lemma {:induction false} LexTrans<T(!new)>(le: (T, T) -> bool, a: seq<T>, b: seq<T>, c: seq<T>)
    requires TotalOrder(le) && LexLE(le, a, b) && LexLE(le, b, c)
    ensures LexLE(le, a, c)
  {
    if a != [] && a[0] == b[0] && b[0] == c[0] {
      LexTrans(le, a[1..], b[1..], c[1..]);
    }
  }

  lemma {:induction false} LexTotal<T(!new)>(le: (T, T) -> bool, a: seq<T>, b: seq<T>)
    requires TotalOrder(le)
    ensures LexLE(le, a, b) || LexLE(le, b, a)
  {
    if a != [] && b != [] && a[0] == b[0] {
      LexTotal(le, a[1..], b[1..]);
    }
  }

  /** Comparing equally long lists is decided before anything appended to them,
      and a tie is decided by what is appended. */
  lemma {:induction false} LexAppend<T(!new)>(le: (T, T) -> bool, a: seq<T>, b: seq<T>, x: T, y: T)
    requires TotalOrder(le) && |a| == |b| && LexLE(le, a, b)
    requires a == b ==> le(x, y)
    ensures LexLE(le, a + [x], b + [y])
  {
    if a != [] {
      assert (a + [x])[1..] == a[1..] + [x] && (b + [y])[1..] == b[1..] + [y];
      if a[0] == b[0] {
        assert a == b <==> a[1..] == b[1..] by {
          assert a == [a[0]] + a[1..] && b == [b[0]] + b[1..];
        }
        LexAppend(le, a[1..], b[1..], x, y);
      }
    }
  }

  // ---- strings, and lists of strings ----

  predicate CharLE(a: char, b: char) { a <= b }

  predicate StrLE(a: string, b: string) { LexLE(CharLE, a, b) }

  predicate ListLE(a: seq<string>, b: seq<string>) { LexLE(StrLE, a, b) }

  lemma CharOrder()
    ensures TotalOrder(CharLE)
  {}

  lemma StrOrder()
    ensures TotalOrder(StrLE)
  {
    CharOrder();
    forall a ensures StrLE(a, a) { LexRefl(CharLE, a); }
    forall a, b | StrLE(a, b) && StrLE(b, a) ensures a == b { LexAntisym(CharLE, a, b); }
    forall a, b, c | StrLE(a, b) && StrLE(b, c) ensures StrLE(a, c) { LexTrans(CharLE, a, b, c); }
    forall a, b ensures StrLE(a, b) || StrLE(b, a) { LexTotal(CharLE, a, b); }
  }

  lemma ListOrder()
    ensures TotalOrder(ListLE)
  {
    StrOrder();
    forall a ensures ListLE(a, a) { LexRefl(StrLE, a); }
    forall a, b | ListLE(a, b) && ListLE(b, a) ensures a == b { LexAntisym(StrLE, a, b); }
    forall a, b, c | ListLE(a, b) && ListLE(b, c) ensures ListLE(a, c) { LexTrans(StrLE, a, b, c); }
    forall a, b ensures ListLE(a, b) || ListLE(b, a) { LexTotal(StrLE, a, b); }
  }

  /** Python's comparison of `(str, str)` tuples. */
  predicate PairLE(a: (string, string), b: (string, string)) {
    if a.0 == b.0 then StrLE(a.1, b.1) else StrLE(a.0, b.0)
  }

  lemma PairOrder()
    ensures TotalOrder(PairLE)
  {
    StrOrder();
  }

  /** `sorted` of a set of strings. */
  function SortedStrings(s: set<string>): (r: seq<string>)
    ensures Ascending(StrLE, r)
    ensures forall x :: x in r <==> x in s
    ensures |r| == |s|
  {
    StrOrder();
    Sorted(StrLE, s)
  }

  /** `sorted` of a set of string pairs. */
  function SortedPairs(s: set<(string, string)>): (r: seq<(string, string)>)
    ensures Ascending(PairLE, r)
    ensures forall x :: x in r <==> x in s
    ensures |r| == |s|
  {
    PairOrder();
    Sorted(PairLE, s)
  }

  // ---- list.sort ----

  ghost predicate TotalPreorder<T(!new)>(le: (T, T) -> bool) {
    && (forall x, y, z :: le(x, y) && le(y, z) ==> le(x, z))
    && (forall x, y :: le(x, y) || le(y, x))
  }

  ghost predicate InOrder<T(!new)>(le: (T, T) -> bool, s: seq<T>) {
    forall i, j :: 0 <= i < j < |s| ==> le(s[i], s[j])
  }

  /** `x` placed after everything that may come before it. */
  function Insert<T>(le: (T, T) -> bool, s: seq<T>, x: T): seq<T> {
    if s == [] || le(s[|s| - 1], x) then s + [x] else Insert(le, s[..|s| - 1], x) + [s[|s| - 1]]
  }

  /** A stable sort. */
  function Sort<T>(le: (T, T) -> bool, s: seq<T>): seq<T> {
    if s == [] then [] else Insert(le, Sort(le, s[..|s| - 1]), s[|s| - 1])
  }

  lemma {:induction false} InsertKeeps<T(!new)>(le: (T, T) -> bool, s: seq<T>, x: T)
    ensures multiset(Insert(le, s, x)) == multiset(s) + multiset{x}
    ensures |Insert(le, s, x)| == |s| + 1
    ensures TotalPreorder(le) && InOrder(le, s) ==> InOrder(le, Insert(le, s, x))
  {
    if s != [] && !le(s[|s| - 1], x) {
      var front, last := s[..|s| - 1], s[|s| - 1];
      assert s == front + [last];
      InsertKeeps(le, front, x);
      var r := Insert(le, front, x);
      hide Insert;
      if TotalPreorder(le) && InOrder(le, s) {
        forall i | 0 <= i < |r| ensures le(r[i], last) {
          assert r[i] in multiset(r);
          assert r[i] in front || r[i] == x;
        }
        InOrderPush(le, r, last);
      }
    }
  }

  lemma InOrderPush<T(!new)>(le: (T, T) -> bool, s: seq<T>, x: T)
    requires InOrder(le, s) && forall i :: 0 <= i < |s| ==> le(s[i], x)
    ensures InOrder(le, s + [x])
  {}

  lemma {:induction false} SortKeeps<T(!new)>(le: (T, T) -> bool, s: seq<T>)
    ensures multiset(Sort(le, s)) == multiset(s) && |Sort(le, s)| == |s|
    ensures forall x :: x in Sort(le, s) <==> x in s
    ensures TotalPreorder(le) ==> InOrder(le, Sort(le, s))
  {
    if s != [] {
      var front, last := s[..|s| - 1], s[|s| - 1];
      assert s == front + [last];
      SortKeeps(le, front);
      InsertKeeps(le, Sort(le, front), last);
    }
    forall x ensures x in Sort(le, s) <==> x in s {
      assert x in Sort(le, s) <==> x in multiset(Sort(le, s));
      assert x in s <==> x in multiset(s);
    }
  }

  // ---- the orders in plain terms ----

  /** The first `k` elements agree, and then one list ends or holds the lesser element. */
  ghost predicate FirstDifference<T>(less: (T, T) -> bool, a: seq<T>, b: seq<T>, k: nat) {
    && k <= |a| && k <= |b| && a[..k] == b[..k]
    && k < |b| && (k == |a| || (a[k] != b[k] && less(a[k], b[k])))
  }

  lemma {:induction false} LexMeans<T(!new)>(le: (T, T) -> bool, a: seq<T>, b: seq<T>)
    ensures LexLE(le, a, b) <==> a == b || exists k: nat :: FirstDifference(le, a, b, k)
  {
    if a == [] {
      if b != [] { assert FirstDifference(le, a, b, 0); }
    } else if b != [] {
      if a[0] == b[0] {
        LexMeans(le, a[1..], b[1..]);
        assert a == [a[0]] + a[1..] && b == [b[0]] + b[1..];
        if k: nat :| FirstDifference(le, a[1..], b[1..], k) {
          assert a[..k + 1] == [a[0]] + a[1..][..k] && b[..k + 1] == [b[0]] + b[1..][..k];
          assert FirstDifference(le, a, b, k + 1);
        }
        if k: nat :| FirstDifference(le, a, b, k) {
          if k > 0 { LaterDifference(le, a, b, k); }
        }
      } else {
        if le(a[0], b[0]) { assert FirstDifference(le, a, b, 0); }
        if k: nat :| FirstDifference(le, a, b, k) {
          if k > 0 { SameHead(le, a, b, k); }
        }
      }
    }
  }

  lemma SameHead<T(!new)>(le: (T, T) -> bool, a: seq<T>, b: seq<T>, k: nat)
    requires FirstDifference(le, a, b, k) && k > 0
    ensures a[0] == b[0]
  {
    assert a[0] == a[..k][0] && b[0] == b[..k][0];
  }

  lemma LaterDifference<T(!new)>(le: (T, T) -> bool, a: seq<T>, b: seq<T>, k: nat)
    requires FirstDifference(le, a, b, k) && k > 0
    ensures FirstDifference(le, a[1..], b[1..], k - 1)
  {
    assert a[1..][..k - 1] == a[..k][1..] && b[1..][..k - 1] == b[..k][1..];
  }

  /** Strings compare by the character codes at their first difference, a prefix coming first. */
  lemma StringsCompare(a: string, b: string)
    ensures StrLE(a, b) <==>
      a == b || exists k: nat :: k < |b| && k <= |a| && a[..k] == b[..k] && (k == |a| || a[k] as int < b[k] as int)
  {
    LexMeans(CharLE, a, b);
    if k: nat :| FirstDifference(CharLE, a, b, k) { assert k == |a| || a[k] as int < b[k] as int; }
    if k: nat :| k < |b| && k <= |a| && a[..k] == b[..k] && (k == |a| || a[k] as int < b[k] as int) {
      assert FirstDifference(CharLE, a, b, k);
    }
  }

  /** Lists compare by the strings at their first difference, a prefix coming first. */
  lemma ListsCompare(a: seq<string>, b: seq<string>)
    ensures ListLE(a, b) <==>
      a == b || exists k: nat :: k < |b| && k <= |a| && a[..k] == b[..k] && (k == |a| || (a[k] != b[k] && StrLE(a[k], b[k])))
  {
    LexMeans(StrLE, a, b);
    hide StrLE;
    if k: nat :| FirstDifference(StrLE, a, b, k) { assert k == |a| || (a[k] != b[k] && StrLE(a[k], b[k])); }
    if k: nat :| k < |b| && k <= |a| && a[..k] == b[..k] && (k == |a| || (a[k] != b[k] && StrLE(a[k], b[k]))) {
      assert FirstDifference(StrLE, a, b, k);
    }
  }
}
