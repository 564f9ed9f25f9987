/** Which built-in routes a plugin route on the same line replaces (src/attackmap/merge.py). */
module RouteTwins {
  import opened Lists
  import opened Wrappers
  import opened Merge
  import opened MergeSchema

  const MAX_SUFFIX_SEGMENTS := 32

  /** How paths are cut into normalized segments and verbs upper-cased; any functions will do. */
  datatype PathRules = PathRules(segments: string -> seq<string>, upper: string -> string)

  type Place = (string, int)

  function PlaceOf(r: Route): Option<Place> {
    if r.line.Some? then Some((r.file, r.line.value)) else None
  }

  predicate EndsWith(path: seq<string>, suffix: seq<string>) {
    |suffix| <= |path| && path[|path| - |suffix|..] == suffix
  }

  // ---- the pairwise definition ----

  /** Plugin route `p` ends with built-in route `b` at a segment boundary, for the same verb. */
  ghost predicate Joins(n: PathRules, b: Route, p: Route) {
    var suffix := n.segments(b.path);
    && |suffix| <= 32 && EndsWith(n.segments(p.path), suffix)
    && SameVerb(n, b, p)
  }

  ghost predicate SameVerb(n: PathRules, b: Route, p: Route) {
    n.upper(b.verb) == "ANY" || n.upper(b.verb) == n.upper(p.verb)
  }

  function CountAt(routes: seq<Route>, place: Place): nat {
    if routes == [] then 0
    else CountAt(routes[..|routes| - 1], place) + if PlaceOf(routes[|routes| - 1]) == Some(place) then 1 else 0
  }

  ghost predicate Partner(n: PathRules, b: Route, p: Route, place: Place, lone: bool) {
    && PlaceOf(p) == Some(place)
    && Joins(n, b, p)
    && (n.segments(b.path) == [] && !lone ==> n.segments(p.path) == [])
  }

  /** Some plugin route on the line of `b` joins it; a built-in root needs a plugin root, unless
      the line has exactly one route of each kind. */
  ghost predicate Superseded(n: PathRules, b: Route, builtins: seq<Route>, plugins: seq<Route>) {
    PlaceOf(b).Some? &&
    var place := PlaceOf(b).value;
    exists p :: p in plugins && Partner(n, b, p, place, CountAt(plugins, place) == 1 && CountAt(builtins, place) == 1)
  }

  lemma {:induction false} CountIsOrderFree(a: seq<Route>, b: seq<Route>, place: Place)
    requires multiset(a) == multiset(b)
    ensures CountAt(a, place) == CountAt(b, place)
  {
    if a == [] {
      NoneIn(b);
    } else {
      hide PlaceOf;
      var j := LastIn(a, b);
      CountWithout(b, j, place);
      CountIsOrderFree(a[..|a| - 1], b[..j] + b[j + 1..], place);
    }
  }

  lemma CountWithout(s: seq<Route>, j: nat, place: Place)
    requires j < |s|
    ensures CountAt(s, place) == CountAt(s[..j] + s[j + 1..], place) + if PlaceOf(s[j]) == Some(place) then 1 else 0
  {
    CountAcross(s[..j], s[j + 1..], place);
    CountAcross(s[..j + 1], s[j + 1..], place);
    assert s == s[..j + 1] + s[j + 1..] && s[..j + 1][..j] == s[..j];
  }

  lemma {:induction false} CountAcross(a: seq<Route>, b: seq<Route>, place: Place)
    ensures CountAt(a + b, place) == CountAt(a, place) + CountAt(b, place)
  {
    if b == [] {
      assert a + b == a;
    } else {
      var k := |b| - 1;
      assert (a + b)[..|a + b| - 1] == a + b[..k];
      CountAcross(a, b[..k], place);
    }
  }

  /** The order the analyzers ran in does not change which built-in routes are dropped. */
  lemma SupersededIsOrderFree(n: PathRules, b: Route, bs: seq<Route>, ps: seq<Route>, bs': seq<Route>, ps': seq<Route>)
    requires multiset(bs) == multiset(bs') && multiset(ps) == multiset(ps')
    ensures Superseded(n, b, bs, ps) <==> Superseded(n, b, bs', ps')
  {
    if PlaceOf(b).Some? {
      var place := PlaceOf(b).value;
      CountIsOrderFree(bs, bs', place);
      CountIsOrderFree(ps, ps', place);
      forall p ensures p in ps <==> p in ps' {
        assert p in ps <==> p in multiset(ps);
        assert p in ps' <==> p in multiset(ps');
      }
    }
  }

  // ---- the indexed search ----

  datatype Site = Site(byVerb: set<(string, seq<string>)>, anyVerb: set<seq<string>>, roots: set<string>, count: nat)

  const EMPTY_SITE := Site({}, {}, {}, 0)

  /** What the plugin routes `ps` offer at `place`. */
  ghost predicate Indexes(n: PathRules, ps: seq<Route>, place: Place, s: Site) {
    && s.count == CountAt(ps, place)
    && (forall v, x :: (v, x) in s.byVerb <==> exists p :: p in ps && Offers(n, p, place, x) && n.upper(p.verb) == v)
    && (forall x :: x in s.anyVerb <==> exists p :: p in ps && Offers(n, p, place, x))
    && (forall v :: v in s.roots <==> exists p :: p in ps && IsRoot(n, p, place) && n.upper(p.verb) == v)
  }

  ghost predicate Offers(n: PathRules, p: Route, place: Place, x: seq<string>) {
    PlaceOf(p) == Some(place) && |x| <= 32 && EndsWith(n.segments(p.path), x)
  }

  ghost predicate IsRoot(n: PathRules, p: Route, place: Place) {
    PlaceOf(p) == Some(place) && n.segments(p.path) == []
  }

  method AddRoute(n: PathRules, ghost ps: seq<Route>, p: Route, ghost place: Place, s: Site) returns (t: Site)
    requires PlaceOf(p) == Some(place) && Indexes(n, ps, place, s)
    ensures Indexes(n, ps + [p], place, t)
  {
    var segments := n.segments(p.path);
    var verb := n.upper(p.verb);
    var byVerb, anyVerb, roots := s.byVerb, s.anyVerb, s.roots;
    if segments == [] { roots := roots + {verb}; }
    var first := if |segments| > MAX_SUFFIX_SEGMENTS then |segments| - MAX_SUFFIX_SEGMENTS else 0;
    for start := first to |segments| + 1
      invariant forall v, x :: (v, x) in byVerb <==> (v, x) in s.byVerb || (v == verb && SuffixFrom(segments, first, start, x))
      invariant forall x :: x in anyVerb <==> x in s.anyVerb || SuffixFrom(segments, first, start, x)
    {
      var suffix := segments[start..];
      byVerb := byVerb + {(verb, suffix)};
      anyVerb := anyVerb + {suffix};
    }
    t := Site(byVerb, anyVerb, roots, s.count + 1);
    forall x ensures SuffixFrom(segments, first, |segments| + 1, x) <==> Offers(n, p, place, x) {
      if Offers(n, p, place, x) { assert segments[|segments| - |x|..] == x; }
    }
    IndexesNext(n, ps, p, place, s, t);
  }

  ghost predicate SuffixFrom(segments: seq<string>, first: nat, end: nat, x: seq<string>)
    requires end <= |segments| + 1
  {
    exists k :: first <= k < end && segments[k..] == x
  }

  lemma IndexesNext(n: PathRules, ps: seq<Route>, p: Route, place: Place, s: Site, t: Site)
    requires PlaceOf(p) == Some(place) && Indexes(n, ps, place, s) && t.count == s.count + 1
    requires forall v, x :: (v, x) in t.byVerb <==> (v, x) in s.byVerb || (v == n.upper(p.verb) && Offers(n, p, place, x))
    requires forall x :: x in t.anyVerb <==> x in s.anyVerb || Offers(n, p, place, x)
    requires forall v :: v in t.roots <==> v in s.roots || (v == n.upper(p.verb) && n.segments(p.path) == [])
    ensures Indexes(n, ps + [p], place, t)
  {
    hide Offers;
    var more := ps + [p];
    assert more[..|ps|] == ps;
    assert forall q :: q in more <==> q in ps || q == p;
  }

  ghost predicate AllIndexed(n: PathRules, ps: seq<Route>, sites: map<Place, Site>) {
    forall place: Place ::
      && (place in sites <==> CountAt(ps, place) > 0)
      && (place in sites ==> Indexes(n, ps, place, sites[place]))
  }

  lemma OtherPlace(n: PathRules, ps: seq<Route>, p: Route, place: Place, s: Site)
    requires PlaceOf(p) != Some(place) && Indexes(n, ps, place, s)
    ensures Indexes(n, ps + [p], place, s) && CountAt(ps + [p], place) == CountAt(ps, place)
  {
    var more := ps + [p];
    assert more[..|ps|] == ps;
    assert forall q :: q in more <==> q in ps || q == p;
    forall x ensures !Offers(n, p, place, x) {}
    assert !IsRoot(n, p, place);
    hide Offers, IsRoot, CountAt;
  }

  lemma {:induction false} NothingThere(n: PathRules, ps: seq<Route>, place: Place)
    requires CountAt(ps, place) == 0
    ensures Indexes(n, ps, place, EMPTY_SITE)
    ensures forall p :: p in ps ==> PlaceOf(p) != Some(place)
  {
    if ps != [] {
      NothingThere(n, ps[..|ps| - 1], place);
      assert forall p :: p in ps <==> p in ps[..|ps| - 1] || p == ps[|ps| - 1];
    }
  }

  method IndexPlugins(n: PathRules, plugins: seq<Cell<Route>>) returns (sites: map<Place, Site>)
    ensures AllIndexed(n, Values(plugins), sites)
  {
    sites := map[];
    ghost var ps := Values(plugins);
    for i := 0 to |plugins|
      invariant AllIndexed(n, ps[..i], sites)
    {
      var p := plugins[i].v;
      assert ps[..i + 1] == ps[..i] + [p] && ps[..i + 1][..i] == ps[..i];
      ghost var before := sites;
      if p.line.Some? {
        var place := (p.file, p.line.value);
        if place !in sites { NothingThere(n, ps[..i], place); }
        var site := AddRoute(n, ps[..i], p, place, if place in sites then sites[place] else EMPTY_SITE);
        sites := sites[place := site];
      }
      forall place: Place
        ensures place in sites <==> CountAt(ps[..i + 1], place) > 0
        ensures place in sites ==> Indexes(n, ps[..i + 1], place, sites[place])
      {
        if PlaceOf(p) != Some(place) && place in before { OtherPlace(n, ps[..i], p, place, before[place]); }
      }
    }
    assert ps[..|ps|] == ps;
  }

  /** The test the code makes for one built-in route, from the site of its line. */
  predicate IsTwin(n: PathRules, b: Route, site: Site, builtinCount: nat) {
    var segments := n.segments(b.path);
    var verb := n.upper(b.verb);
    if segments == [] && !(site.count == 1 && builtinCount == 1) then
      (if verb == "ANY" then site.roots != {} else verb in site.roots)
    else if verb == "ANY" then segments in site.anyVerb
    else (verb, segments) in site.byVerb
  }

  lemma TwinIsSuperseded(n: PathRules, b: Route, builtins: seq<Route>, plugins: seq<Route>, place: Place, site: Site)
    requires PlaceOf(b) == Some(place) && Indexes(n, plugins, place, site)
    ensures IsTwin(n, b, site, CountAt(builtins, place)) <==> Superseded(n, b, builtins, plugins)
  {
    var segments := n.segments(b.path);
    var verb := n.upper(b.verb);
    var lone := CountAt(plugins, place) == 1 && CountAt(builtins, place) == 1;
    forall p ensures Partner(n, b, p, place, lone) <==>
      (if segments == [] && !lone then IsRoot(n, p, place) else Offers(n, p, place, segments)) && SameVerb(n, b, p)
    {}
    hide Partner, Offers, IsRoot;
    if segments == [] && !lone {
      if site.roots != {} { var v :| v in site.roots; }
      if p :| p in plugins && Partner(n, b, p, place, lone) { assert n.upper(p.verb) in site.roots; }
    } else {
      if p :| p in plugins && Partner(n, b, p, place, lone) {
        assert (n.upper(p.verb), segments) in site.byVerb && segments in site.anyVerb;
      }
    }
  }

  lemma AloneIsKept(n: PathRules, b: Route, bs: seq<Route>, ps: seq<Route>)
    requires b.line.Some? ==> CountAt(ps, (b.file, b.line.value)) == 0
    ensures !Superseded(n, b, bs, ps)
  {
    if b.line.Some? { NothingThere(n, ps, (b.file, b.line.value)); }
  }

  /** How many built-in routes each line has. */
  method CountPlaces(builtins: seq<Cell<Route>>) returns (counts: map<Place, nat>)
    ensures forall place: Place :: CountAt(Values(builtins), place) == if place in counts then counts[place] else 0
  {
    ghost var bs := Values(builtins);
    counts := map[];
    for i := 0 to |builtins|
      invariant forall place: Place :: CountAt(bs[..i], place) == if place in counts then counts[place] else 0
    {
      assert bs[..i + 1][..i] == bs[..i];
      var b := builtins[i].v;
      if b.line.Some? {
        var place := (b.file, b.line.value);
        counts := counts[place := (if place in counts then counts[place] else 0) + 1];
      }
    }
    assert bs[..|bs|] == bs;
  }

  /** The built-in route objects a plugin route replaces: exactly the pairwise twins. */
  method SupersededBuiltinRoutes(n: PathRules, builtins: seq<Cell<Route>>, plugins: seq<Cell<Route>>)
    returns (superseded: set<Cell<Route>>)
    ensures forall c :: c in superseded <==> c in builtins && Superseded(n, c.v, Values(builtins), Values(plugins))
  {
    superseded := {};
    var sites := IndexPlugins(n, plugins);
    ghost var bs, ps := Values(builtins), Values(plugins);
    var counts := CountPlaces(builtins);
    hide Superseded, CountAt, IsTwin, Indexes;
    for i := 0 to |builtins|
      invariant forall c :: c in superseded <==> c in builtins[..i] && Superseded(n, c.v, bs, ps)
    {
      assert builtins[..i + 1] == builtins[..i] + [builtins[i]];
      var b := builtins[i].v;
      if b.line.Some? {
        var place := (b.file, b.line.value);
        if place in sites {
          assert place in counts by { CountsItself(bs, i, place); }
          TwinIsSuperseded(n, b, bs, ps, place, sites[place]);
          if IsTwin(n, b, sites[place], counts[place]) { superseded := superseded + {builtins[i]}; }
        }
      }
      if b.line.None? || (b.file, b.line.value) !in sites { AloneIsKept(n, b, bs, ps); }
    }
    assert builtins[..|builtins|] == builtins;
  }

  lemma {:induction false} CountsItself(routes: seq<Route>, i: nat, place: Place)
    requires i < |routes| && PlaceOf(routes[i]) == Some(place)
    ensures CountAt(routes, place) > 0
  {
    if i < |routes| - 1 { CountsItself(routes[..|routes| - 1], i, place); }
  }
}
