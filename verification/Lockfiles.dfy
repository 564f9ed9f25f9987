/** Lockfile resolution: from a resolved dependency graph to one hint per installed
    package, each with the path that pulled it in (src/attackmap/lockfiles.py). */
module Lockfiles {
  import opened Orders
  import opened Text
  import opened Wrappers

  /** One parsed lockfile: installed (name, version) with its dev flag, name-based edges,
      and the direct dependencies when the format names them. */
  datatype Graph = Graph(
    ecosystem: string,
    instances: map<(string, string), bool>,
    edges: map<string, set<string>>,
    roots: set<string>)

  function Names(g: Graph): set<string> {
    set i | i in g.instances :: i.0
  }

  /** What a path search runs on: edges, roots, and the installed names it may visit. */
  datatype Net = Net(edges: map<string, set<string>>, roots: set<string>, names: set<string>) {
    function Children(n: string): set<string> {
      if n in edges then edges[n] else {}
    }

    ghost predicate Walk(p: seq<string>) {
      p != [] && forall i {:trigger Children(p[i])} :: 0 <= i < |p| - 1 ==> p[i + 1] in Children(p[i])
    }

    /** A dependency chain: it starts at a root and visits installed names only. */
    ghost predicate Chain(p: seq<string>) {
      && Walk(p)
      && p[0] in roots
      && forall i :: 0 <= i < |p| ==> p[i] in names
    }

    ghost predicate ChainTo(p: seq<string>, n: string) {
      Chain(p) && p[|p| - 1] == n
    }

    ghost predicate Reachable(n: string) {
      exists p :: ChainTo(p, n)
    }

    /** The least of the shortest chains to `n`. */
    ghost predicate Best(p: seq<string>, n: string) {
      ChainTo(p, n) && forall q :: ChainTo(q, n) ==> ShortLE(p, q)
    }
  }

  /** Shorter first, then list order. */
  ghost predicate ShortLE(p: seq<string>, q: seq<string>) {
    |p| < |q| || (|p| == |q| && ListLE(p, q))
  }

  lemma ShortOrder()
    ensures TotalOrder(ShortLE)
  {
    ListOrder();
  }

  lemma ShortAppend(p: seq<string>, q: seq<string>, x: string, y: string)
    requires ShortLE(p, q)
    requires p == q ==> StrLE(x, y)
    ensures ShortLE(p + [x], q + [y])
  {
    StrOrder();
    if |p| == |q| { LexAppend(StrLE, p, q, x, y); }
  }

  // ---- the breadth-first search ----

  /** Names in the order the search found them; the first `done` have been expanded. */
  datatype Search = Search(found: seq<string>, done: nat, paths: map<string, seq<string>>) {
    ghost predicate Recorded(net: Net) {
      && done <= |found|
      && (forall x :: x in paths <==> x in found)
      && (forall i, j :: 0 <= i < j < |found| ==> found[i] != found[j])
      && (forall n {:trigger net.ChainTo(paths[n], n)} :: n in found ==> net.ChainTo(paths[n], n))
      && (forall r :: r in net.roots && r in net.names ==> r in paths && paths[r] == [r])
    }

    /** Every recorded path is at most every path recorded later. */
    ghost predicate Ordered()
      requires forall x :: x in found ==> x in paths
    {
      forall i, j :: 0 <= i < j < |found| ==> ShortLE(paths[found[i]], paths[found[j]])
    }

    /** A longer path extends the recorded path of an expanded name, or of `busy` by one of `seen`. */
    ghost predicate Extends(busy: set<string>, seen: seq<string>)
      requires done <= |found| && forall x :: x in found ==> x in paths
    {
      forall n {:trigger ExtendsAt(busy, seen, n)} :: n in found ==> ExtendsAt(busy, seen, n)
    }

    ghost predicate ExtendsAt(busy: set<string>, seen: seq<string>, n: string)
      requires done <= |found| && n in paths
    {
      var p := paths[n];
      |p| > 1 ==>
        var u := p[|p| - 2];
        && u in paths && p == paths[u] + [n]
        && (u in found[..done] || (u in busy && n in seen))
    }

    /** Along each edge out of `u` into `names`, the child's path is at most `u`'s extended. */
    ghost predicate Relaxed(u: string, children: set<string>, names: set<string>)
      requires u in paths
    {
      forall c :: c in children && c in names ==> c in paths && ShortLE(paths[c], paths[u] + [c])
    }

    ghost predicate AllRelaxed(net: Net)
      requires done <= |found| && forall x :: x in found ==> x in paths
    {
      forall u {:trigger Relaxed(u, net.Children(u), net.names)} ::
        u in found[..done] ==> Relaxed(u, net.Children(u), net.names)
    }

    ghost predicate Inv(net: Net) {
      Recorded(net) && Ordered() && Extends({}, []) && AllRelaxed(net)
    }

    /** While `found[done]` is being expanded and the children in `seen` are dealt with. */
    ghost predicate Expanding(net: Net, seen: seq<string>) {
      && Recorded(net) && done < |found| && Ordered() && AllRelaxed(net)
      && Extends({found[done]}, seen)
      && Relaxed(found[done], (set c | c in seen), net.names)
    }
  }

  /** A path already recorded is at most the extension of the path being expanded. */
  lemma EarlierIsLess(net: Net, s: Search, seen: seq<string>, c: string, i: nat)
    requires s.Expanding(net, seen) && i < |s.found|
    requires forall x :: x in seen ==> StrLE(x, c)
    ensures ShortLE(s.paths[s.found[i]], s.paths[s.found[s.done]] + [c])
  {
    var u := s.found[s.done];
    var n := s.found[i];
    var p := s.paths[n];
    assert s.ExtendsAt({u}, seen, n) && net.ChainTo(s.paths[u], u);
    if |p| > 1 {
      var w := p[|p| - 2];
      hide ShortLE, Search.Expanding;
      if w in s.found[..s.done] {
        ExpandedIsLess(net, s, seen, w);
      } else {
        ShortOrder();
      }
      ShortAppend(s.paths[w], s.paths[u], n, c);
    }
  }

  lemma ExpandedIsLess(net: Net, s: Search, seen: seq<string>, w: string)
    requires s.Expanding(net, seen) && w in s.found[..s.done]
    ensures ShortLE(s.paths[w], s.paths[s.found[s.done]]) && s.paths[w] != s.paths[s.found[s.done]]
  {
    hide ShortLE, Search.Extends, Search.AllRelaxed, Search.Relaxed;
    var u := s.found[s.done];
    var a :| 0 <= a < s.done && s.found[a] == w;
    assert ShortLE(s.paths[s.found[a]], s.paths[s.found[s.done]]);
    assert net.ChainTo(s.paths[w], w) && net.ChainTo(s.paths[u], u);
  }

  function Visit(s: Search, c: string): (t: Search)
    requires s.done < |s.found| && s.found[s.done] in s.paths
  {
    s.(found := s.found + [c], paths := s.paths[c := s.paths[s.found[s.done]] + [c]])
  }

  lemma VisitKeepsRecords(net: Net, s: Search, c: string)
    requires s.Recorded(net) && s.done < |s.found| && c in net.names && c !in s.paths
    requires c in net.Children(s.found[s.done])
    ensures Visit(s, c).Recorded(net)
  {
    var u := s.found[s.done];
    var t := Visit(s, c);
    var p := t.paths[c];
    assert net.ChainTo(s.paths[u], u);
    forall i | 0 <= i < |p| - 1 ensures p[i + 1] in net.Children(p[i]) {
      if i + 1 < |p| - 1 { assert p[i + 1] == s.paths[u][i + 1]; }
    }
    assert net.ChainTo(p, c);
    forall n | n in t.found ensures net.ChainTo(t.paths[n], n) {
      if n != c { assert n in s.found && net.ChainTo(s.paths[n], n); }
    }
  }

  lemma VisitKeepsOrder(net: Net, s: Search, seen: seq<string>, c: string)
    requires s.Expanding(net, seen) && c !in s.paths
    requires forall x :: x in seen ==> StrLE(x, c)
    ensures Visit(s, c).Ordered()
  {
    hide ListLE, Search.Extends, Search.AllRelaxed;
    var t := Visit(s, c);
    forall i, j | 0 <= i < j < |t.found| ensures ShortLE(t.paths[t.found[i]], t.paths[t.found[j]]) {
      assert t.found[i] == s.found[i];
      if j == |s.found| { EarlierIsLess(net, s, seen, c, i); }
      else { assert ShortLE(s.paths[s.found[i]], s.paths[s.found[j]]); }
    }
  }

  lemma VisitKeepsExtends(net: Net, s: Search, seen: seq<string>, c: string)
    requires s.Recorded(net) && s.done < |s.found| && c !in s.paths
    requires s.Extends({s.found[s.done]}, seen)
    ensures Visit(s, c).Extends({s.found[s.done]}, seen + [c])
  {
    var u := s.found[s.done];
    var t := Visit(s, c);
    assert t.found[..t.done] == s.found[..s.done];
    forall n | n in t.found ensures t.ExtendsAt({u}, seen + [c], n) {
      if n != c { assert n in s.found && s.ExtendsAt({u}, seen, n); }
      else { assert net.ChainTo(s.paths[u], u); }
    }
  }

  lemma VisitKeepsRelaxed(net: Net, s: Search, seen: seq<string>, c: string)
    requires s.Recorded(net) && s.done < |s.found| && s.AllRelaxed(net) && c !in s.paths
    requires s.Relaxed(s.found[s.done], (set x | x in seen), net.names)
    ensures Visit(s, c).AllRelaxed(net)
    ensures Visit(s, c).Relaxed(s.found[s.done], (set x | x in seen + [c]), net.names)
  {
    hide ListLE;
    var t := Visit(s, c);
    ShortOrder();
    assert t.found[..t.done] == s.found[..s.done];
    forall v | v in t.found[..t.done] ensures t.Relaxed(v, net.Children(v), net.names) {
      assert s.Relaxed(v, net.Children(v), net.names);
    }
  }

  /** A child seen for the first time joins the end of the queue with its parent's path extended. */
  lemma VisitNew(net: Net, s: Search, seen: seq<string>, c: string)
    requires s.Expanding(net, seen) && c in net.names && c !in s.paths
    requires c in net.Children(s.found[s.done])
    requires forall x :: x in seen ==> StrLE(x, c)
    ensures Visit(s, c).Expanding(net, seen + [c])
  {
    hide ListLE, Search.Extends, Search.AllRelaxed, Search.Relaxed, Search.Ordered;
    VisitKeepsRecords(net, s, c);
    VisitKeepsOrder(net, s, seen, c);
    VisitKeepsExtends(net, s, seen, c);
    VisitKeepsRelaxed(net, s, seen, c);
    assert Visit(s, c).found[s.done] == s.found[s.done];
  }

  /** A child found earlier already has a path at least as good. */
  lemma VisitOld(net: Net, s: Search, seen: seq<string>, c: string)
    requires s.Expanding(net, seen)
    requires c !in net.names || c in s.paths
    requires forall x :: x in seen ==> StrLE(x, c)
    ensures s.Expanding(net, seen + [c])
  {
    if c in s.paths {
      var i :| 0 <= i < |s.found| && s.found[i] == c;
      EarlierIsLess(net, s, seen, c, i);
    }
    forall n | n in s.found ensures s.ExtendsAt({s.found[s.done]}, seen + [c], n) {
      assert s.ExtendsAt({s.found[s.done]}, seen, n);
    }
  }

  lemma Finish(net: Net, s: Search, seen: seq<string>)
    requires s.Expanding(net, seen)
    requires forall c :: c in net.Children(s.found[s.done]) <==> c in seen
    ensures s.(done := s.done + 1).Inv(net)
  {
    hide ListLE;
    var t := s.(done := s.done + 1);
    FinishExtends(s, seen);
    hide Search.Extends, Search.ExtendsAt, Net.ChainTo;
    assert t.found[..t.done] == s.found[..s.done] + [s.found[s.done]];
    assert (set c | c in seen) == net.Children(s.found[s.done]);
    assert s.Relaxed(s.found[s.done], net.Children(s.found[s.done]), net.names);
    hide Net.Children, Search.Relaxed;
    forall v | v in t.found[..t.done] ensures t.Relaxed(v, net.Children(v), net.names) {
      SameRelaxed(s, t, v, net.Children(v), net.names);
    }
  }

  lemma SameRelaxed(s: Search, t: Search, v: string, children: set<string>, names: set<string>)
    requires t.paths == s.paths && v in s.paths && s.Relaxed(v, children, names)
    ensures t.Relaxed(v, children, names)
  {}

  lemma FinishExtends(s: Search, seen: seq<string>)
    requires s.done < |s.found| && (forall x :: x in s.found ==> x in s.paths) && s.Extends({s.found[s.done]}, seen)
    ensures s.(done := s.done + 1).Extends({}, [])
  {
    var t := s.(done := s.done + 1);
    assert t.found[..t.done] == s.found[..s.done] + [s.found[s.done]];
    forall n | n in t.found ensures t.ExtendsAt({}, [], n) {
      assert s.ExtendsAt({s.found[s.done]}, seen, n);
    }
  }

  lemma Seeded(net: Net, s: Search, order: seq<string>)
    requires Ascending(StrLE, order) && forall r :: r in order <==> r in net.roots && r in net.names
    requires s == Search(order, 0, map r | r in order :: [r])
    ensures s.Inv(net)
  {
    forall n | n in order ensures net.ChainTo(s.paths[n], n) {
      assert s.paths[n] == [n];
    }
    forall i, j | 0 <= i < j < |order| ensures ShortLE([order[i]], [order[j]]) {
      StrOrder();
    }
  }

  /** Once every name is expanded, no chain beats the recorded path. */
  lemma {:induction false} NoChainBeats(net: Net, s: Search, q: seq<string>)
    requires s.Inv(net) && s.done == |s.found| && net.Chain(q)
    ensures q[|q| - 1] in s.paths && ShortLE(s.paths[q[|q| - 1]], q)
  {
    hide ShortLE, Search.Inv;
    var n := q[|q| - 1];
    if |q| == 1 {
      assert q == [n];
      RootPath(net, s, n);
    } else {
      var q' := q[..|q| - 1];
      var u := q'[|q'| - 1];
      NoChainBeats(net, s, q');
      assert q[|q| - 2 + 1] in net.Children(q[|q| - 2]);
      assert q == q' + [n];
      OneEdgeOn(net, s, q', u, n);
    }
  }

  lemma RootPath(net: Net, s: Search, r: string)
    requires s.Inv(net) && r in net.roots && r in net.names
    ensures r in s.paths && ShortLE(s.paths[r], [r])
  {
    ShortOrder();
  }

  lemma OneEdgeOn(net: Net, s: Search, q: seq<string>, u: string, n: string)
    requires s.Inv(net) && s.done == |s.found| && u in s.paths && ShortLE(s.paths[u], q)
    requires n in net.Children(u) && n in net.names
    ensures n in s.paths && ShortLE(s.paths[n], q + [n])
  {
    hide Search.Extends, Search.Ordered, ListLE;
    assert s.found[..s.done] == s.found;
    assert s.Relaxed(u, net.Children(u), net.names);
    StrOrder();
    ShortOrder();
    ShortAppend(s.paths[u], q, n, n);
  }

  /** The recorded paths: exactly the reachable names, each with its best chain. */
  ghost predicate BestPaths(net: Net, paths: map<string, seq<string>>) {
    && (forall n :: n in paths <==> net.Reachable(n))
    && (forall n :: n in paths ==> net.Best(paths[n], n))
  }

  lemma SearchDone(net: Net, s: Search)
    requires s.Inv(net) && s.done == |s.found|
    ensures BestPaths(net, s.paths)
  {
    forall n ensures n in s.paths <==> net.Reachable(n) {
      if n in s.paths {
        var i :| 0 <= i < |s.found| && s.found[i] == n;
        assert net.ChainTo(s.paths[n], n);
      }
      if net.Reachable(n) {
        var q :| net.ChainTo(q, n);
        NoChainBeats(net, s, q);
      }
    }
    forall n | n in s.paths ensures net.Best(s.paths[n], n) {
      var i :| 0 <= i < |s.found| && s.found[i] == n;
      assert net.ChainTo(s.paths[n], n);
      forall q | net.ChainTo(q, n) ensures ShortLE(s.paths[n], q) { NoChainBeats(net, s, q); }
    }
  }

  /** Which path a package gets depends on the root, edge and name sets alone: no
      iteration order can change it. */
  lemma BestPathsUnique(net: Net, a: map<string, seq<string>>, b: map<string, seq<string>>)
    requires BestPaths(net, a) && BestPaths(net, b)
    ensures a == b
  {
    ShortOrder();
    assert forall n :: n in a <==> n in b;
    forall n | n in a ensures a[n] == b[n] {
      assert net.Best(a[n], n) && net.Best(b[n], n);
      assert ShortLE(a[n], b[n]) && ShortLE(b[n], a[n]);
    }
  }

  lemma Begin(net: Net, s: Search)
    requires s.Inv(net) && s.done < |s.found|
    ensures s.Expanding(net, []) && s.found[s.done] in s.paths
  {
    hide ListLE;
    forall n | n in s.found ensures s.ExtendsAt({s.found[s.done]}, [], n) {
      assert s.ExtendsAt({}, [], n);
    }
  }

  lemma PrefixBelow(s: seq<string>, k: nat)
    requires Ascending(StrLE, s) && k < |s|
    ensures forall x :: x in s[..k] ==> StrLE(x, s[k])
  {}

  /** The paths and the queue after the children of the name at the head have been looked at. */
  method ExpandNext(net: Net, known: map<string, seq<string>>, queue: seq<string>, ghost s: Search)
    returns (paths: map<string, seq<string>>, rest: seq<string>, ghost t: Search)
    requires s.Inv(net) && s.paths == known && s.done < |s.found| && queue == s.found[s.done..]
    ensures t.Inv(net) && t.paths == paths && t.done <= |t.found| && rest == t.found[t.done..]
    ensures net.names - paths.Keys <= net.names - known.Keys
    ensures net.names - paths.Keys == net.names - known.Keys ==> |rest| < |queue|
  {
    hide Search.Expanding, Search.Inv, Ascending, StrLE;
    Begin(net, s);
    var current := queue[0];
    var children := SortedStrings(net.Children(current));
    paths, rest, t := known, queue[1..], s;
    for k := 0 to |children|
      invariant t.Expanding(net, children[..k]) && t.paths == paths
      invariant t.done < |t.found| && t.found[t.done] == current && current in paths
      invariant rest == t.found[t.done + 1..]
      invariant known.Keys <= paths.Keys
      invariant net.names - paths.Keys == net.names - known.Keys ==> |rest| < |queue|
    {
      var child := children[k];
      assert children[..k + 1] == children[..k] + [child];
      PrefixBelow(children, k);
      if child in paths || child !in net.names {
        VisitOld(net, t, children[..k], child);
      } else {
        VisitNew(net, t, children[..k], child);
        t := Visit(t, child);
        assert child in net.names - known.Keys;
        paths := paths[child := paths[current] + [child]];
        rest := rest + [child];
      }
    }
    assert children[..|children|] == children;
    Finish(net, t, children);
    t := t.(done := t.done + 1);
  }

  method ShortestPaths(net: Net) returns (paths: map<string, seq<string>>)
    ensures BestPaths(net, paths)
  {
    hide Search.Inv, BestPaths, Ascending, StrLE;
    var order := SortedStrings(net.roots * net.names);
    paths := map r | r in order :: [r];
    var queue := order;
    ghost var s := Search(order, 0, paths);
    Seeded(net, s, order);
    while queue != []
      invariant s.Inv(net) && s.paths == paths && s.done <= |s.found| && queue == s.found[s.done..]
      decreases net.names - paths.Keys, |queue|
    {
      paths, queue, s := ExpandNext(net, paths, queue, s);
    }
    SearchDone(net, s);
  }

  // ---- roots ----

  /** Names some recorded edge points at. */
  function DependedOn(edges: map<string, set<string>>): set<string> {
    set u, c | u in edges && c in edges[u] :: c
  }

  function RootNames(g: Graph): set<string> {
    if g.roots != {} then g.roots
    else
      var free := Names(g) - DependedOn(g.edges);
      if free != {} then free else Names(g)
  }

  function NetOf(g: Graph): Net {
    Net(g.edges, RootNames(g), Names(g))
  }

  method ImplicitRoots(g: Graph) returns (roots: set<string>)
    requires g.roots == {}
    ensures roots == RootNames(g)
  {
    var dependedOn := {};
    var todo := g.edges.Keys;
    while todo != {}
      invariant todo <= g.edges.Keys
      invariant dependedOn == set u, c | u in g.edges && u !in todo && c in g.edges[u] :: c
    {
      var u :| u in todo;
      dependedOn := dependedOn + g.edges[u];
      todo := todo - {u};
    }
    roots := set n | n in Names(g) && n !in dependedOn;
    assert roots == Names(g) - DependedOn(g.edges);
    if roots == {} { roots := Names(g); }
  }

  ghost predicate Acyclic(net: Net) {
    forall p :: net.Walk(p) && |p| > 1 ==> p[0] != p[|p| - 1]
  }

  lemma WalkUp(net: Net, u: string, w: seq<string>)
    requires net.Walk(w) && w[0] in net.Children(u)
    ensures net.Walk([u] + w)
  {
    var up := [u] + w;
    forall i | 0 <= i < |up| - 1 ensures up[i + 1] in net.Children(up[i]) {
      if i > 0 { assert w[i - 1 + 1] in net.Children(w[i - 1]); }
    }
  }

  /** Installed names, none of them a root, that only each other have edges to. */
  ghost predicate Detached(net: Net, s: set<string>) {
    && s != {} && s <= net.names && s !! net.roots
    && forall u, c :: u in net.names && c in net.Children(u) && c in s ==> u in s
  }

  lemma {:induction false} NoWayIn(net: Net, s: set<string>, q: seq<string>)
    requires Detached(net, s) && net.Chain(q)
    ensures q[|q| - 1] !in s
  {
    if |q| > 1 {
      var k := |q| - 2;
      NoWayIn(net, s, q[..k + 1]);
      assert q[k + 1] in net.Children(q[k]);
    }
  }

  lemma OneMoreStep(net: Net, u: string, c: string)
    requires net.Reachable(u) && c in net.names && c in net.Children(u)
    ensures net.Reachable(c)
  {
    var p :| net.ChainTo(p, u);
    var q := p + [c];
    forall i | 0 <= i < |q| - 1 ensures q[i + 1] in net.Children(q[i]) {
      if i < |p| - 1 { assert p[i + 1] in net.Children(p[i]); }
    }
    assert net.ChainTo(q, c);
  }

  /** Whatever the roots, some installed name is missed exactly when some names are detached. */
  lemma UnreachedIffDetached(net: Net)
    ensures (exists n :: n in net.names && !net.Reachable(n)) <==> exists s :: Detached(net, s)
  {
    if s :| Detached(net, s) {
      var n :| n in s;
      if net.Reachable(n) {
        var q :| net.ChainTo(q, n);
        NoWayIn(net, s, q);
      }
    }
    if n :| n in net.names && !net.Reachable(n) {
      var s := set x | x in net.names && !net.Reachable(x);
      forall u, c | u in net.names && c in net.Children(u) && c in s ensures u in s {
        if net.Reachable(u) { OneMoreStep(net, u, c); }
      }
      forall r | r in s ensures r !in net.roots {
        if r in net.roots { assert net.ChainTo([r], r); }
      }
      assert n in s && Detached(net, s);
    }
  }

  /** A walk back to where it began, all of it within `s`. */
  ghost predicate CycleIn(net: Net, s: set<string>, p: seq<string>) {
    net.Walk(p) && |p| > 1 && p[0] == p[|p| - 1] && forall i :: 0 <= i < |p| ==> p[i] in s
  }

  lemma WayBackIsCycle(net: Net, s: set<string>, u: string, w: seq<string>)
    requires net.Walk([u] + w) && u in w && u in s && forall i :: 0 <= i < |w| ==> w[i] in s
    ensures exists p :: CycleIn(net, s, p)
  {
    var up := [u] + w;
    var i :| 0 <= i < |w| && w[i] == u;
    var loop := up[..i + 2];
    forall j | 0 <= j < |loop| - 1 ensures loop[j + 1] in net.Children(loop[j]) {
      assert up[j + 1] in net.Children(up[j]);
    }
    assert CycleIn(net, s, loop);
  }

  /** With no declared roots, climbing from a detached name to what depends on it comes round. */
  lemma {:induction false} ClimbComesRound(g: Graph, s: set<string>, w: seq<string>)
    requires g.roots == {} && g.edges.Keys <= Names(g) && Detached(NetOf(g), s)
    requires NetOf(g).Walk(w) && forall i :: 0 <= i < |w| ==> w[i] in s
    ensures exists p :: CycleIn(NetOf(g), s, p)
    decreases s - set x | x in w
  {
    var net := NetOf(g);
    var u := DependentWithin(g, s, w[0]);
    hide Names, Net.Walk, Detached, NetOf, CycleIn;
    WalkUp(net, u, w);
    if u in w {
      WayBackIsCycle(net, s, u, w);
    } else {
      var up := [u] + w;
      assert (set x | x in up) == {u} + set x | x in w;
      ClimbComesRound(g, s, up);
    }
  }

  lemma DependentWithin(g: Graph, s: set<string>, n: string) returns (u: string)
    requires g.roots == {} && g.edges.Keys <= Names(g) && Detached(NetOf(g), s) && n in s
    ensures u in s && n in NetOf(g).Children(u)
  {
    assert n in Names(g) && n !in RootNames(g);
    assert n in DependedOn(g.edges);
    u :| u in g.edges && n in g.edges[u];
  }

  /** With no declared roots, some installed name is missed exactly when there is a detached cycle:
      names that only each other have edges to, none of them free, with a cycle among them. */
  lemma MissedIffDetachedCycle(g: Graph)
    requires g.roots == {} && g.edges.Keys <= Names(g)
    ensures (exists n :: n in Names(g) && !NetOf(g).Reachable(n)) <==>
      exists s, p :: Detached(NetOf(g), s) && CycleIn(NetOf(g), s, p)
  {
    var net := NetOf(g);
    assert net.names == Names(g);
    UnreachedIffDetached(net);
    if s :| Detached(net, s) {
      var n :| n in s;
      assert net.Walk([n]);
      ClimbComesRound(g, s, [n]);
    }
  }

  /** On an acyclic graph with no declared roots, every installed name is reached. */
  lemma ImplicitRootsReachEverything(g: Graph, n: string)
    requires g.roots == {} && g.edges.Keys <= Names(g) && Acyclic(NetOf(g))
    requires n in Names(g)
    ensures NetOf(g).Reachable(n)
  {
    hide NetOf, Names, Net.Reachable, Detached;
    MissedIffDetachedCycle(g);
  }

  /** A cycle nothing else depends on is not reached when some other name is free:
      the fallback to all names only applies when every name is on the depended-on side. */
  lemma DetachedCycleIsUnreached()
    ensures
      var g := Graph("npm", map[("a", "1") := false, ("b", "1") := false, ("c", "1") := false],
                     map["b" := {"c"}, "c" := {"b"}], {});
      g.edges.Keys <= Names(g) && "b" in Names(g) && !NetOf(g).Reachable("b")
  {
    var g := Graph("npm", map[("a", "1") := false, ("b", "1") := false, ("c", "1") := false],
                   map["b" := {"c"}, "c" := {"b"}], {});
    var net := NetOf(g);
    assert ("a", "1") in g.instances && ("b", "1") in g.instances && ("c", "1") in g.instances;
    assert "a" in Names(g) && "b" in Names(g) && "c" in Names(g);
    assert "b" in g.edges["c"] && "c" in g.edges["b"];
    assert Names(g) == {"a", "b", "c"};
    assert "b" in DependedOn(g.edges) && "c" in DependedOn(g.edges) && "a" !in DependedOn(g.edges);
    assert "a" in Names(g) - DependedOn(g.edges);
    assert net.roots == {"a"};
    forall q | net.Chain(q) ensures q[|q| - 1] != "b" {
      assert |q| > 1 ==> q[0 + 1] in net.Children(q[0]);
    }
  }

  // ---- hints ----

  datatype Hint = Hint(
    name: string, version: string, ecosystem: string, file: string,
    dev: bool, resolved: bool, direct: bool, via: Option<string>, evidence: string)

  /** Some installed package is called this. */
  ghost predicate Installed(g: Graph, n: string) {
    exists version :: (n, version) in g.instances
  }

  ghost predicate Needed(g: Graph, n: string) {
    exists u :: u in g.edges && n in g.edges[u]
  }

  /** Where chains start: at the declared direct dependencies if there are any, else at the installed
      names no package needs, else, when each is needed, at every installed name. */
  ghost predicate IsRoot(g: Graph, n: string) {
    if g.roots != {} then n in g.roots
    else Installed(g, n) && (!Needed(g, n) || forall x :: Installed(g, x) ==> Needed(g, x))
  }

  /** The net of a graph, its roots and names as told by the graph itself. */
  ghost predicate IsNetOf(g: Graph, net: Net) {
    && net.edges == g.edges && (forall n :: n in net.roots <==> IsRoot(g, n))
    && forall n :: n in net.names <==> Installed(g, n)
  }

  lemma NetOfIsNet(g: Graph)
    ensures IsNetOf(g, NetOf(g))
    ensures g.roots != {} ==> NetOf(g) == Net(g.edges, g.roots, Names(g))
    ensures forall net :: IsNetOf(g, net) ==> net == NetOf(g)
  {
    forall n ensures n in Names(g) <==> Installed(g, n) {
      if n in Names(g) {
        var i :| i in g.instances && i.0 == n;
        assert (n, i.1) in g.instances;
      }
    }
    assert forall n :: n in DependedOn(g.edges) <==> Needed(g, n);
    if g.roots == {} {
      var free := Names(g) - DependedOn(g.edges);
      assert free == {} <==> forall x :: Installed(g, x) ==> Needed(g, x) by {
        if free == {} {
          forall x | Installed(g, x) ensures Needed(g, x) { assert x !in free; }
        }
      }
    }
  }

  /** What the hint of an installed package says. */
  ghost predicate HintFor(g: Graph, file: string, key: (string, string), h: Hint)
    requires key in g.instances
  {
    && h.name == key.0 && h.version == key.1 && h.ecosystem == g.ecosystem && h.file == file
    && h.dev == g.instances[key] && h.resolved
    && (h.direct <==> IsRoot(g, key.0))
    && (forall net :: IsNetOf(g, net) ==>
          && (h.via.Some? <==> net.Reachable(key.0) && !h.direct)
          && (h.via.Some? ==> exists p :: net.Best(p, key.0) && |p| > 1 && h.via.value == Joined(" > ", p)))
    && h.evidence == (if h.direct then key.0 + "@" + key.1
                      else "transitive: " + (if h.via.Some? then h.via.value else key.0))
  }

  /** A root's best path is the root alone, and every other best path starts elsewhere. */
  lemma BestOfRoot(net: Net, p: seq<string>, n: string)
    requires net.Best(p, n)
    ensures |p| == 1 <==> n in net.roots
  {
    if n in net.roots {
      assert net.ChainTo([n], n);
      assert ShortLE(p, [n]);
    }
  }

  /** The `via` text of a name: its recorded path, when that is more than the name itself. */
  function Via(paths: map<string, seq<string>>, n: string): Option<string> {
    if n in paths && |paths[n]| > 1 then Some(Joined(" > ", paths[n])) else None
  }

  /** The hint of one installed package, given the roots and the recorded paths. */
  function HintOf(g: Graph, file: string, key: (string, string), roots: set<string>,
                  paths: map<string, seq<string>>): Hint
    requires key in g.instances
  {
    var direct := key.0 in roots;
    var via := Via(paths, key.0);
    Hint(key.0, key.1, g.ecosystem, file, g.instances[key], true, direct, via,
         if direct then key.0 + "@" + key.1
         else "transitive: " + (if via.Some? then via.value else key.0))
  }

  lemma HintOfIsRight(g: Graph, file: string, key: (string, string), paths: map<string, seq<string>>)
    requires key in g.instances && BestPaths(NetOf(g), paths)
    ensures HintFor(g, file, key, HintOf(g, file, key, RootNames(g), paths))
  {
    hide Joined, ShortLE, RootNames, Names, IsRoot, Installed;
    var n := key.0;
    NetOfIsNet(g);
    if n in paths {
      assert NetOf(g).Best(paths[n], n);
      BestOfRoot(NetOf(g), paths[n], n);
    }
  }

  /** With direct dependencies declared, they and no others are direct, and a path is given for every
      other name that they lead to. */
  lemma DeclaredRootsDecide(g: Graph, file: string, key: (string, string), h: Hint)
    requires key in g.instances && HintFor(g, file, key, h) && g.roots != {}
    ensures h.direct <==> key.0 in g.roots
    ensures h.via.Some? <==> key.0 !in g.roots && Net(g.edges, g.roots, Names(g)).Reachable(key.0)
  {
    NetOfIsNet(g);
  }

  /** With none declared, a name is direct if no package needs it, or if every installed one is needed. */
  lemma ImplicitRootsDecide(g: Graph, file: string, key: (string, string), h: Hint)
    requires key in g.instances && HintFor(g, file, key, h) && g.roots == {}
    ensures h.direct <==>
      || (forall u :: u in g.edges ==> key.0 !in g.edges[u])
      || (forall k :: k in g.instances ==> exists u :: u in g.edges && k.0 in g.edges[u])
  {
    assert Installed(g, key.0) by { assert (key.0, key.1) in g.instances; }
    if forall x :: Installed(g, x) ==> Needed(g, x) {
      forall k | k in g.instances ensures Needed(g, k.0) { assert (k.0, k.1) in g.instances; }
    }
    if forall k :: k in g.instances ==> exists u :: u in g.edges && k.0 in g.edges[u] {
      forall x | Installed(g, x) ensures Needed(g, x) {
        var v :| (x, v) in g.instances;
      }
    }
  }

  /** A best path is at most as long as any other chain, and of those as long it comes first. */
  lemma BestIsLeast(net: Net, p: seq<string>, q: seq<string>, n: string)
    requires net.Best(p, n) && net.ChainTo(q, n) && p != q
    ensures |p| < |q| || (|p| == |q| && exists k: nat :: k < |p| && p[..k] == q[..k] && p[k] != q[k] && StrLE(p[k], q[k]))
  {
    ListsCompare(p, q);
    hide StrLE, ListLE, Net.ChainTo;
    if |p| == |q| {
      var k: nat :| k < |q| && k <= |p| && p[..k] == q[..k] && (k == |p| || (p[k] != q[k] && StrLE(p[k], q[k])));
    }
  }

  /** One hint per installed (name, version), in sorted order. */
  method GraphToHints(g: Graph, rel: string) returns (hints: seq<Hint>)
    ensures |hints| == |g.instances|
    ensures forall i :: 0 <= i < |hints| ==>
      var key := SortedPairs(g.instances.Keys)[i];
      key in g.instances && HintFor(g, rel, key, hints[i])
  {
    hide HintFor, HintOf, BestPaths, DependedOn, Ascending;
    var names := Names(g);
    var roots := g.roots;
    if roots == {} { roots := ImplicitRoots(g); }
    var paths := ShortestPaths(Net(g.edges, roots, names));
    hints := [];
    var keys := SortedPairs(g.instances.Keys);
    for k := 0 to |keys|
      invariant |hints| == k
      invariant forall i :: 0 <= i < k ==> keys[i] in g.instances && HintFor(g, rel, keys[i], hints[i])
    {
      assert keys[k] in g.instances;
      HintOfIsRight(g, rel, keys[k], paths);
      hints := hints + [HintOf(g, rel, keys[k], roots, paths)];
    }
  }
}
