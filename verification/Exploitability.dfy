/** Fusing what is known about a route-to-sink path into one score (src/attackmap/exploitability.py). */
module Exploitability {
  import opened Lists
  import opened Orders
  import opened Text
  import opened Wrappers

  // ---- inputs ----

  datatype Surface = Surface(verb: string, route: string, file: string, exposure: string, authSignals: seq<string>)

  datatype Chain = Chain(
    routeVerb: string, routePath: string, routeFile: string, sinkKind: string, sinkFile: string,
    files: seq<string>, hops: int)

  /** An advisory or a supply-chain issue: a package ("" when an issue names none), how bad it is,
      and an id or kind. */
  datatype Risk = Risk(ecosystem: string, package: string, severity: string, id: string)

  /** Everything found in a scan that a score draws on; secrets, datastores and weaknesses by file. */
  datatype Scan = Scan(
    secrets: seq<string>, datastores: seq<string>, weaknesses: seq<string>,
    advisories: seq<Risk>, issues: seq<Risk>)

  /** What is read from elsewhere: the packages each file imports, and the registry's base score of
      sink kinds without a tuned weight. */
  datatype Context = Context(imports: string -> set<string>, kindBase: string -> int)

  function Module(file: string): string {
    var path := ForwardSlashes(file);
    CutAtLastSlash(path)
  }

  /** Everything before the last slash, or nothing. */
  function CutAtLastSlash(path: string): string {
    if path == [] then ""
    else if path[|path| - 1] == '/' then path[..|path| - 1]
    else CutAtLastSlash(path[..|path| - 1])
  }

  function Paths(files: seq<string>): set<string> { set f | f in files :: ForwardSlashes(f) }

  function Modules(files: seq<string>): set<string> { set f | f in files :: Module(f) }

  // ---- severities ----

  function Order(severity: string): int {
    if severity == "high" then 2 else if severity == "medium" then 1 else 0
  }

  predicate Ranked(severity: string) { severity == "low" || severity == "medium" || severity == "high" }

  /** An unknown severity counts as medium. */
  function Rated(r: Risk): string { if Ranked(r.severity) then r.severity else "medium" }

  /** Runs of `-`, `_` and `.` become one dash, and letters lower case. */
  function Pep503(name: string): string { Lower(CollapseRuns(name)) }

  predicate RunChar(c: char) { c == '-' || c == '_' || c == '.' }

  function CollapseRuns(s: string): string {
    if s == [] then ""
    else
      var k := |s| - 1;
      if !RunChar(s[k]) then CollapseRuns(s[..k]) + [s[k]]
      else if k > 0 && RunChar(s[k - 1]) then CollapseRuns(s[..k])
      else CollapseRuns(s[..k]) + "-"
  }

  function PackageKey(r: Risk): string {
    if r.ecosystem == "pypi" then Pep503(r.package) else Lower(r.package)
  }

  /** Issues that name no package are left out; advisories always name one. */
  predicate On(r: Risk, k: string, skipUnnamed: bool) {
    !(skipUnnamed && r.package == "") && PackageKey(r) == k
  }

  type Index = map<string, (string, set<string>)>

  /** The index holds exactly the packages reported, with the worst severity and all ids. */
  ghost predicate Indexes(index: Index, risks: seq<Risk>, skip: bool) {
    forall k :: IndexesAt(index, risks, skip, k)
  }

  ghost predicate IndexesAt(index: Index, risks: seq<Risk>, skip: bool, k: string) {
    && (k in index <==> Reported(risks, skip, k))
    && (k in index ==> Worst(risks, skip, k, index[k].0))
    && (k in index ==> forall id :: id in index[k].1 <==> exists r :: r in risks && On(r, k, skip) && r.id == id)
  }

  ghost predicate Reported(risks: seq<Risk>, skip: bool, k: string) {
    exists r :: r in risks && On(r, k, skip)
  }

  ghost predicate Worst(risks: seq<Risk>, skip: bool, k: string, severity: string) {
    && Ranked(severity)
    && (exists r :: r in risks && On(r, k, skip) && Rated(r) == severity)
    && (forall r :: r in risks && On(r, k, skip) ==> Order(Rated(r)) <= Order(severity))
  }

  function Entered(index: Index, k: string, r: Risk): Index {
    if k !in index then index[k := (Rated(r), {r.id})]
    else
      var (prev, ids) := index[k];
      index[k := (if Order(Rated(r)) > Order(prev) then Rated(r) else prev, ids + {r.id})]
  }

  lemma EnteredAt(index: Index, risks: seq<Risk>, skip: bool, r: Risk, k: string)
    requires IndexesAt(index, risks, skip, k)
    ensures On(r, k, skip) ==> IndexesAt(Entered(index, k, r), risks + [r], skip, k)
    ensures !On(r, k, skip) ==> IndexesAt(index, risks + [r], skip, k)
  {
    hide On, Rated;
    assert Ranked(Rated(r)) by { RatedIsRanked(r); }
    var more := risks + [r];
    assert forall x :: x in more <==> x in risks || x == r;
    if On(r, k, skip) {
      assert r in more;
      if k !in index { assert forall x :: x in risks ==> !On(x, k, skip); }
    }
  }

  lemma RatedIsRanked(r: Risk)
    ensures Ranked(Rated(r))
  {}

  lemma OtherKeysStay(index: Index, other: Index, risks: seq<Risk>, skip: bool, k: string)
    requires IndexesAt(index, risks, skip, k)
    requires (k in other <==> k in index) && (k in index ==> other[k] == index[k])
    ensures IndexesAt(other, risks, skip, k)
  {}

  /** The package index of advisories, or of supply-chain issues. */
  method IndexRisks(risks: seq<Risk>, skipUnnamed: bool) returns (index: Index)
    ensures Indexes(index, risks, skipUnnamed)
  {
    hide IndexesAt, PackageKey;
    index := map[];
    assert Indexes(index, risks[..0], skipUnnamed) by { NothingIndexed(risks[..0], skipUnnamed); }
    for i := 0 to |risks|
      invariant Indexes(index, risks[..i], skipUnnamed)
    {
      assert risks[..i + 1] == risks[..i] + [risks[i]];
      var r := risks[i];
      var key := PackageKey(r);
      ghost var before, now := index, risks[..i + 1];
      if !(skipUnnamed && r.package == "") { index := Entered(index, key, r); }
      forall k ensures IndexesAt(index, now, skipUnnamed, k) {
        EnteredAt(before, risks[..i], skipUnnamed, r, k);
        if !On(r, k, skipUnnamed) { OtherKeysStay(before, index, now, skipUnnamed, k); }
      }
    }
    assert risks[..|risks|] == risks;
  }

  lemma NothingIndexed(risks: seq<Risk>, skip: bool)
    requires risks == []
    ensures Indexes(map[], risks, skip)
  {}

  // ---- packages on the path ----

  function PathFiles(c: Chain): set<string> {
    {ForwardSlashes(c.routeFile), ForwardSlashes(c.sinkFile)} + Paths(c.files)
  }

  /** The indexed packages some file on the path imports. */
  function OnPath(ctx: Context, c: Chain, index: Index): set<string> {
    set f, p | f in PathFiles(c) && p in ctx.imports(f) && p in index :: p
  }

  datatype Factor = Factor(name: string, points: int)

  function Sum(factors: seq<Factor>): int {
    if factors == [] then 0 else Sum(factors[..|factors| - 1]) + factors[|factors| - 1].points
  }

  lemma {:induction false} SumOfSum(a: seq<Factor>, b: seq<Factor>)
    ensures Sum(a + b) == Sum(a) + Sum(b)
  {
    if b == [] {
      assert a + b == a;
    } else {
      assert (a + b)[..|a + b| - 1] == a + b[..|b| - 1];
      SumOfSum(a, b[..|b| - 1]);
    }
  }

  /** How many points a package on the path adds, by severity. */
  datatype Weights = Weights(high: nat, medium: nat, low: nat)

  const CVE_ON_PATH := Weights(15, 8, 3)
  const SUPPLY_CHAIN_ON_PATH := Weights(8, 4, 2)

  function PointsFor(w: Weights, severity: string): nat {
    if severity == "high" then w.high else if severity == "low" then w.low else w.medium
  }

  function PackageFactor(what: string, w: Weights, index: Index, p: string): Factor
    requires p in index
  {
    Factor(what + " (" + p + ")", PointsFor(w, index[p].0))
  }

  /** One factor per package, in order of package name. */
  function PackageFactors(what: string, w: Weights, index: Index, packages: seq<string>): (r: seq<Factor>)
    requires forall i :: 0 <= i < |packages| ==> packages[i] in index
    ensures |r| == |packages| && forall i :: 0 <= i < |r| ==> r[i] == PackageFactor(what, w, index, packages[i])
  {
    seq(|packages|, i requires 0 <= i < |packages| => PackageFactor(what, w, index, packages[i]))
  }

  method PackagesOnPath(ctx: Context, c: Chain, index: Index) returns (packages: seq<string>)
    ensures packages == SortedStrings(OnPath(ctx, c, index))
  {
    var matches: set<string> := {};
    var todo := PathFiles(c);
    while todo != {}
      invariant todo <= PathFiles(c)
      invariant matches == set f, p | f in PathFiles(c) && f !in todo && p in ctx.imports(f) && p in index :: p
    {
      var f :| f in todo;
      matches := matches + set p | p in ctx.imports(f) && p in index;
      todo := todo - {f};
    }
    assert matches == OnPath(ctx, c, index);
    packages := SortedStrings(matches);
  }

  // ---- the surface of a chain's own route ----

  function Exact(s: Surface, c: Chain): bool {
    s.verb == c.routeVerb && s.route == c.routePath && ForwardSlashes(s.file) == ForwardSlashes(c.routeFile)
  }

  function SameRoute(s: Surface, c: Chain): bool { s.verb == c.routeVerb && s.route == c.routePath }

  function SameFile(s: Surface, c: Chain): bool { ForwardSlashes(s.file) == ForwardSlashes(c.routeFile) }

  function Matching(surfaces: seq<Surface>, p: Surface -> bool): (r: seq<Surface>)
  {
    if surfaces == [] then []
    else
      var k := |surfaces| - 1;
      Matching(surfaces[..k], p) + if p(surfaces[k]) then [surfaces[k]] else []
  }

  /** The first surface of the same verb, route and file; failing that the only one of the route;
      failing that the only one in the file. */
  function SurfaceOf(surfaces: seq<Surface>, c: Chain): Option<Surface> {
    var exact := FirstWhere(surfaces, s => Exact(s, c));
    if exact.Some? then Some(surfaces[exact.value])
    else
      var byRoute := Matching(surfaces, s => SameRoute(s, c));
      if |byRoute| == 1 then Some(byRoute[0])
      else
        var byFile := Matching(surfaces, s => SameFile(s, c));
        if |byFile| == 1 then Some(byFile[0]) else None
  }

  class SurfaceIndex {
    var exact: map<(string, string, string), Surface>
    var byRoute: map<(string, string), seq<Surface>>
    var byFile: map<string, seq<Surface>>
    ghost const surfaces: seq<Surface>

    ghost predicate Valid()
      reads this
    {
      Covers(exact, byRoute, byFile, surfaces)
    }

    constructor (surfaces: seq<Surface>)
      ensures Valid() && this.surfaces == surfaces
    {
      var exact: map<(string, string, string), Surface> := map[];
      var byRoute: map<(string, string), seq<Surface>> := map[];
      var byFile: map<string, seq<Surface>> := map[];
      for i := 0 to |surfaces|
        invariant Covers(exact, byRoute, byFile, surfaces[..i])
      {
        assert surfaces[..i + 1] == surfaces[..i] + [surfaces[i]];
        var s := surfaces[i];
        CoversNext(exact, byRoute, byFile, surfaces[..i], s);
        var file := ForwardSlashes(s.file);
        if (s.verb, s.route, file) !in exact { exact := exact[(s.verb, s.route, file) := s]; }
        byRoute := byRoute[(s.verb, s.route) := At(byRoute, (s.verb, s.route)) + [s]];
        byFile := byFile[file := At(byFile, file) + [s]];
      }
      assert surfaces[..|surfaces|] == surfaces;
      this.exact, this.byRoute, this.byFile := exact, byRoute, byFile;
      this.surfaces := surfaces;
    }

    method Lookup(c: Chain) returns (r: Option<Surface>)
      requires Valid()
      ensures r == SurfaceOf(surfaces, c)
    {
      var file := ForwardSlashes(c.routeFile);
      LookupIsRight(exact, byRoute, byFile, surfaces, c);
      if (c.routeVerb, c.routePath, file) in exact { return Some(exact[(c.routeVerb, c.routePath, file)]); }
      var candidates := At(byRoute, (c.routeVerb, c.routePath));
      if |candidates| == 1 { return Some(candidates[0]); }
      candidates := At(byFile, file);
      if |candidates| == 1 { return Some(candidates[0]); }
      r := None;
    }
  }

  function At<K>(m: map<K, seq<Surface>>, k: K): seq<Surface> { if k in m then m[k] else [] }

  /** The three maps hold, under each key, the first or all surfaces with that key. */
  ghost predicate Covers(exact: map<(string, string, string), Surface>, byRoute: map<(string, string), seq<Surface>>,
                         byFile: map<string, seq<Surface>>, surfaces: seq<Surface>) {
    forall c: Chain :: CoversFor(exact, byRoute, byFile, surfaces, c)
  }

  ghost predicate CoversFor(exact: map<(string, string, string), Surface>, byRoute: map<(string, string), seq<Surface>>,
                            byFile: map<string, seq<Surface>>, surfaces: seq<Surface>, c: Chain) {
    var file := ForwardSlashes(c.routeFile);
    var first := FirstWhere(surfaces, s => Exact(s, c));
    && ((c.routeVerb, c.routePath, file) in exact <==> first.Some?)
    && (first.Some? ==> exact[(c.routeVerb, c.routePath, file)] == surfaces[first.value])
    && At(byRoute, (c.routeVerb, c.routePath)) == Matching(surfaces, s => SameRoute(s, c))
    && At(byFile, file) == Matching(surfaces, s => SameFile(s, c))
  }

  lemma CoversNext(exact: map<(string, string, string), Surface>, byRoute: map<(string, string), seq<Surface>>,
                   byFile: map<string, seq<Surface>>, surfaces: seq<Surface>, s: Surface)
    requires Covers(exact, byRoute, byFile, surfaces)
    ensures
      var file := ForwardSlashes(s.file);
      Covers(if (s.verb, s.route, file) in exact then exact else exact[(s.verb, s.route, file) := s],
             byRoute[(s.verb, s.route) := At(byRoute, (s.verb, s.route)) + [s]],
             byFile[file := At(byFile, file) + [s]], surfaces + [s])
  {
    var file := ForwardSlashes(s.file);
    var exact' := if (s.verb, s.route, file) in exact then exact else exact[(s.verb, s.route, file) := s];
    var byRoute' := byRoute[(s.verb, s.route) := At(byRoute, (s.verb, s.route)) + [s]];
    var byFile' := byFile[file := At(byFile, file) + [s]];
    var more := surfaces + [s];
    forall c: Chain ensures CoversFor(exact', byRoute', byFile', more, c) {
      assert CoversFor(exact, byRoute, byFile, surfaces, c);
      hide CoversFor;
      CoversForNext(exact, byRoute, byFile, surfaces, s, c);
    }
  }

  lemma CoversForNext(exact: map<(string, string, string), Surface>, byRoute: map<(string, string), seq<Surface>>,
                      byFile: map<string, seq<Surface>>, surfaces: seq<Surface>, s: Surface, c: Chain)
    requires CoversFor(exact, byRoute, byFile, surfaces, c)
    ensures
      var file := ForwardSlashes(s.file);
      CoversFor(if (s.verb, s.route, file) in exact then exact else exact[(s.verb, s.route, file) := s],
                byRoute[(s.verb, s.route) := At(byRoute, (s.verb, s.route)) + [s]],
                byFile[file := At(byFile, file) + [s]], surfaces + [s], c)
  {
    hide ForwardSlashes, FirstWhere, Matching;
    FirstNext(surfaces, s, x => Exact(x, c));
    MatchingNext(surfaces, s, x => SameRoute(x, c));
    MatchingNext(surfaces, s, x => SameFile(x, c));
  }

  lemma FirstNext(surfaces: seq<Surface>, s: Surface, p: Surface -> bool)
    ensures FirstWhere(surfaces + [s], p) ==
      if FirstWhere(surfaces, p).Some? then FirstWhere(surfaces, p) else if p(s) then Some(|surfaces|) else None
  {
    assert (surfaces + [s])[..|surfaces|] == surfaces;
  }

  lemma MatchingNext(surfaces: seq<Surface>, s: Surface, p: Surface -> bool)
    ensures Matching(surfaces + [s], p) == Matching(surfaces, p) + if p(s) then [s] else []
  {
    assert (surfaces + [s])[..|surfaces|] == surfaces;
  }

  lemma LookupIsRight(exact: map<(string, string, string), Surface>, byRoute: map<(string, string), seq<Surface>>,
                      byFile: map<string, seq<Surface>>, surfaces: seq<Surface>, c: Chain)
    requires Covers(exact, byRoute, byFile, surfaces)
    ensures CoversFor(exact, byRoute, byFile, surfaces, c)
  {}

  // ---- the score ----

  const SINK_BASE: map<string, int> := map[
    "sql_execute" := 35, "exec" := 35, "eval" := 35, "subprocess_shell" := 35, "unsafe_deserialization" := 35,
    "ssti" := 30, "nosql_injection" := 25, "dynamic_open" := 22, "ssrf" := 20, "open_redirect" := 15]

  const NO_AUTH := 20
  const SECRET_AT_SINK := 15
  const DATASTORE_AT_SINK := 10
  const WEAKNESS_ON_PATH := 5

  function BasePoints(ctx: Context, kind: string): int {
    if kind in SINK_BASE then SINK_BASE[kind] else ctx.kindBase(kind)
  }

  function ExposurePoints(surface: Option<Surface>): int {
    if surface.None? then 10
    else if surface.value.exposure == "public" then 20
    else if surface.value.exposure == "internal" then 5 else 10
  }

  function AuthPoints(surface: Option<Surface>): int {
    if surface.Some? && surface.value.authSignals != [] then 0 else NO_AUTH
  }

  function HopPoints(hops: int): int {
    if hops == 0 then 15 else if hops == 1 then 10 else if hops == 2 then 5 else 3
  }

  predicate Beside(files: seq<string>, sink: string) {
    ForwardSlashes(sink) in Paths(files) || Module(sink) in Modules(files)
  }

  /** A secret beside the sink counts more than a datastore, and they do not add up. */
  function SensitivityPoints(scan: Scan, c: Chain): int {
    if Beside(scan.secrets, c.sinkFile) then SECRET_AT_SINK
    else if Beside(scan.datastores, c.sinkFile) then DATASTORE_AT_SINK else 0
  }

  function WeaknessPoints(scan: Scan, c: Chain): int {
    if PathFiles(c) * Paths(scan.weaknesses) != {} then WEAKNESS_ON_PATH else 0
  }

  function PathPoints(ctx: Context, c: Chain, w: Weights, index: Index): int {
    var packages := SortedStrings(OnPath(ctx, c, index));
    assert forall i :: 0 <= i < |packages| ==> packages[i] in packages;
    Sum(PackageFactors("", w, index, packages))
  }

  /** The package indexes a score is computed with. */
  datatype Indexed = Indexed(advisories: Index, issues: Index)

  function Raw(ctx: Context, surface: Option<Surface>, scan: Scan, x: Indexed, c: Chain): int {
    BasePoints(ctx, c.sinkKind) + ExposurePoints(surface) + AuthPoints(surface) + HopPoints(c.hops)
    + SensitivityPoints(scan, c) + WeaknessPoints(scan, c)
    + PathPoints(ctx, c, CVE_ON_PATH, x.advisories) + PathPoints(ctx, c, SUPPLY_CHAIN_ON_PATH, x.issues)
  }

  function Clamp(raw: int): int { if raw < 0 then 0 else if raw > 100 then 100 else raw }

  datatype Tier = Low | Medium | High | Critical

  function TierOf(score: int): Tier {
    if score >= 75 then Critical else if score >= 50 then High else if score >= 25 then Medium else Low
  }

  function TierRank(t: Tier): nat {
    match t case Low => 0 case Medium => 1 case High => 2 case Critical => 3
  }

  datatype Score = Score(score: int, raw: int, tier: Tier, factors: seq<Factor>)

  lemma {:induction false} NamesDoNotScore(a: seq<Factor>, b: seq<Factor>)
    requires |a| == |b| && forall i :: 0 <= i < |a| ==> a[i].points == b[i].points
    ensures Sum(a) == Sum(b)
  {
    if a != [] { NamesDoNotScore(a[..|a| - 1], b[..|b| - 1]); }
  }

  function SurfaceFactors(ctx: Context, surface: Option<Surface>, c: Chain): seq<Factor> {
    [ Factor("reaches " + c.sinkKind + " sink", BasePoints(ctx, c.sinkKind)),
      Factor((if surface.Some? then surface.value.exposure else "unknown") + " exposure", ExposurePoints(surface)),
      if surface.Some? && surface.value.authSignals != []
      then Factor("auth present at entry", 0) else Factor("no auth at entry", NO_AUTH),
      Factor("reachability", HopPoints(c.hops)) ]
  }

  function SinkFactors(scan: Scan, c: Chain): seq<Factor> {
    if Beside(scan.secrets, c.sinkFile) then [Factor("secret material at sink", SECRET_AT_SINK)]
    else if Beside(scan.datastores, c.sinkFile) then [Factor("datastore at sink", DATASTORE_AT_SINK)] else []
  }

  function GapFactors(scan: Scan, c: Chain): seq<Factor> {
    if PathFiles(c) * Paths(scan.weaknesses) != {}
    then [Factor("crypto/web-hardening gap on path", WEAKNESS_ON_PATH)] else []
  }

  lemma FactorSums(ctx: Context, surface: Option<Surface>, scan: Scan, c: Chain)
    ensures Sum(SurfaceFactors(ctx, surface, c)) ==
      BasePoints(ctx, c.sinkKind) + ExposurePoints(surface) + AuthPoints(surface) + HopPoints(c.hops)
    ensures Sum(SinkFactors(scan, c)) == SensitivityPoints(scan, c)
    ensures Sum(GapFactors(scan, c)) == WeaknessPoints(scan, c)
  {
    hide Beside, PathFiles, Paths, Sum, BasePoints, ExposurePoints, HopPoints;
    var f := SurfaceFactors(ctx, surface, c);
    FixedSum(f[0], f[1], f[2], f[3]);
    SumOfOne(SinkFactors(scan, c));
    SumOfOne(GapFactors(scan, c));
  }

  /** The factors the packages on the path add. */
  method PathFactors(what: string, ctx: Context, c: Chain, w: Weights, index: Index) returns (factors: seq<Factor>)
    ensures Sum(factors) == PathPoints(ctx, c, w, index)
    ensures |factors| == |OnPath(ctx, c, index)|
  {
    hide OnPath, Sum;
    var packages := PackagesOnPath(ctx, c, index);
    InIndex(ctx, c, index);
    factors := PackageFactors(what, w, index, packages);
    NamesDoNotScore(factors, PackageFactors("", w, index, packages));
  }

  /** The score of one chain, with a named factor for every point. */
  method ScoreChain(ctx: Context, surfaces: SurfaceIndex, scan: Scan, x: Indexed, c: Chain) returns (r: Score)
    requires surfaces.Valid()
    ensures r.raw == Sum(r.factors) && r.raw == Raw(ctx, SurfaceOf(surfaces.surfaces, c), scan, x, c)
    ensures r.score == Clamp(r.raw) && 0 <= r.score <= 100 && r.tier == TierOf(r.score)
    ensures exists entry :: IsSurfaceOf(surfaces.surfaces, c, entry) && r.raw == Worth(ctx, entry, scan, x, c)
    ensures |r.factors| == 4 + NotesBesides(scan, c) + |OnPath(ctx, c, x.advisories)| + |OnPath(ctx, c, x.issues)|
    ensures r.score == if r.raw < 0 then 0 else if 100 < r.raw then 100 else r.raw
    ensures (r.tier == Critical <==> 75 <= r.score) && (r.tier == High <==> 50 <= r.score < 75)
         && (r.tier == Medium <==> 25 <= r.score < 50) && (r.tier == Low <==> r.score < 25)
  {
    hide IsSurfaceOf, Worth, NotesBesides, OnPath, BasePoints, HopPoints, ExposurePoints, AuthPoints;
    hide SurfaceOf, SensitivityPoints, WeaknessPoints, PathPoints, SurfaceFactors, SinkFactors, GapFactors;
    var surface := surfaces.Lookup(c);
    SurfaceOfIs(surfaces.surfaces, c);
    RawIsWorth(ctx, surface, scan, x, c);
    NotesAre(scan, c);
    FourFactors(ctx, surface, c);
    FactorSums(ctx, surface, scan, c);
    var factors := SurfaceFactors(ctx, surface, c);
    SumOfSum(factors, SinkFactors(scan, c));
    factors := factors + SinkFactors(scan, c);
    SumOfSum(factors, GapFactors(scan, c));
    factors := factors + GapFactors(scan, c);
    var vulnerable := PathFactors("vulnerable dependency on path", ctx, c, CVE_ON_PATH, x.advisories);
    SumOfSum(factors, vulnerable);
    factors := factors + vulnerable;
    var risky := PathFactors("supply-chain-risky dependency on path", ctx, c, SUPPLY_CHAIN_ON_PATH, x.issues);
    SumOfSum(factors, risky);
    factors := factors + risky;
    var raw := Total(factors);
    r := Score(Clamp(raw), raw, TierOf(Clamp(raw)), factors);
  }

  method Total(factors: seq<Factor>) returns (raw: int)
    ensures raw == Sum(factors)
  {
    raw := 0;
    for i := 0 to |factors|
      invariant raw == Sum(factors[..i])
    {
      assert factors[..i + 1][..i] == factors[..i];
      raw := raw + factors[i].points;
    }
    assert factors[..|factors|] == factors;
  }

  lemma FixedSum(a: Factor, b: Factor, c: Factor, d: Factor)
    ensures Sum([a, b, c, d]) == a.points + b.points + c.points + d.points
  {
    SumOfSum([a, b, c], [d]);
    SumOfSum([a, b], [c]);
    SumOfSum([a], [b]);
    SumOfOne([a]);
    SumOfOne([b]);
    SumOfOne([c]);
    SumOfOne([d]);
    assert [a] + [b] + [c] + [d] == [a, b, c, d];
  }

  lemma SumOfOne(s: seq<Factor>)
    requires |s| <= 1
    ensures Sum(s) == if s == [] then 0 else s[0].points
  {
    if |s| == 1 { assert s[..0] == [] && Sum(s) == Sum(s[..0]) + s[0].points; }
  }

  lemma InIndex(ctx: Context, c: Chain, index: Index)
    ensures forall i :: 0 <= i < |SortedStrings(OnPath(ctx, c, index))| ==> SortedStrings(OnPath(ctx, c, index))[i] in index
  {
    var packages := SortedStrings(OnPath(ctx, c, index));
    forall i | 0 <= i < |packages| ensures packages[i] in index { assert packages[i] in packages; }
  }

  // ---- more evidence never lowers a score ----

  ghost predicate Subset<T>(a: seq<T>, b: seq<T>) {
    forall x :: x in a ==> x in b
  }

  /** Scan `b` has everything scan `a` has. */
  ghost predicate MoreEvidence(a: Scan, b: Scan) {
    && Subset(a.secrets, b.secrets) && Subset(a.datastores, b.datastores) && Subset(a.weaknesses, b.weaknesses)
    && Subset(a.advisories, b.advisories) && Subset(a.issues, b.issues)
  }

  /** The same surface, perhaps with its auth signals gone. */
  ghost predicate Weaker(a: Surface, b: Surface) {
    b == a.(authSignals := b.authSignals) && (b.authSignals != [] ==> a.authSignals != [])
  }

  ghost predicate LessAuth(a: seq<Surface>, b: seq<Surface>) {
    |a| == |b| && forall i :: 0 <= i < |a| ==> Weaker(a[i], b[i])
  }

  lemma {:induction false} MatchingLess(a: seq<Surface>, b: seq<Surface>, p: Surface -> bool)
    requires LessAuth(a, b) && forall i :: 0 <= i < |a| ==> p(a[i]) == p(b[i])
    ensures LessAuth(Matching(a, p), Matching(b, p))
  {
    if a != [] { MatchingLess(a[..|a| - 1], b[..|b| - 1], p); }
  }

  lemma {:induction false} FirstLess(a: seq<Surface>, b: seq<Surface>, p: Surface -> bool)
    requires |a| == |b| && forall i :: 0 <= i < |a| ==> p(a[i]) == p(b[i])
    ensures FirstWhere(a, p) == FirstWhere(b, p)
  {
    if a != [] { FirstLess(a[..|a| - 1], b[..|b| - 1], p); }
  }

  /** Dropping auth signals changes neither which surface a chain gets nor its exposure. */
  lemma SurfaceOfLess(a: seq<Surface>, b: seq<Surface>, c: Chain)
    requires LessAuth(a, b)
    ensures SurfaceOf(a, c).Some? <==> SurfaceOf(b, c).Some?
    ensures SurfaceOf(a, c).Some? ==> Weaker(SurfaceOf(a, c).value, SurfaceOf(b, c).value)
  {
    hide ForwardSlashes;
    forall i | 0 <= i < |a|
      ensures Exact(a[i], c) == Exact(b[i], c) && SameRoute(a[i], c) == SameRoute(b[i], c) && SameFile(a[i], c) == SameFile(b[i], c)
    {
      assert Weaker(a[i], b[i]);
    }
    FirstLess(a, b, s => Exact(s, c));
    MatchingLess(a, b, s => SameRoute(s, c));
    MatchingLess(a, b, s => SameFile(s, c));
  }

  /** Each package stays indexed, at the same severity or a worse one. */
  ghost predicate NoBetter(a: Index, b: Index) {
    forall k :: k in a ==> k in b && Ranked(a[k].0) && Ranked(b[k].0) && Order(a[k].0) <= Order(b[k].0)
  }

  lemma IndexNoBetter(a: Index, b: Index, ra: seq<Risk>, rb: seq<Risk>, skip: bool)
    requires Indexes(a, ra, skip) && Indexes(b, rb, skip) && Subset(ra, rb)
    ensures NoBetter(a, b)
  {
    hide On;
    forall k | k in a ensures k in b && Ranked(a[k].0) && Ranked(b[k].0) && Order(a[k].0) <= Order(b[k].0) {
      assert IndexesAt(a, ra, skip, k) && IndexesAt(b, rb, skip, k);
      var r :| r in ra && On(r, k, skip) && Rated(r) == a[k].0;
      assert r in rb;
      assert Reported(rb, skip, k);
    }
  }

  ghost function SetPoints(w: Weights, index: Index, s: set<string>): int
    requires forall p :: p in s ==> p in index
  {
    var packages := SortedStrings(s);
    assert forall i :: 0 <= i < |packages| ==> packages[i] in packages;
    Sum(PackageFactors("", w, index, packages))
  }

  lemma SortedSplit(s: set<string>)
    requires TotalOrder(StrLE) && s != {}
    ensures SortedStrings(s) == [Least(StrLE, s)] + SortedStrings(s - {Least(StrLE, s)})
  {
    hide StrLE, TotalOrder, Ascending, LeastOf;
  }

  lemma FactorsSplit(w: Weights, index: Index, m: string, rest: seq<string>)
    requires m in index && forall i :: 0 <= i < |rest| ==> rest[i] in index
    ensures forall i :: 0 <= i < |[m] + rest| ==> ([m] + rest)[i] in index
    ensures Sum(PackageFactors("", w, index, [m] + rest)) ==
      PointsFor(w, index[m].0) + Sum(PackageFactors("", w, index, rest))
  {
    hide PointsFor;
    var first := [PackageFactor("", w, index, m)];
    var others := PackageFactors("", w, index, rest);
    assert PackageFactors("", w, index, [m] + rest) == first + others;
    SumOfSum(first, others);
    SumOfOne(first);
  }

  /** A total over packages can be taken one package at a time. */
  lemma PointsSplit(w: Weights, index: Index, s: set<string>)
    requires s != {} && forall p :: p in s ==> p in index
    ensures TotalOrder(StrLE)
    ensures
      var m := Least(StrLE, s);
      SetPoints(w, index, s) == PointsFor(w, index[m].0) + SetPoints(w, index, s - {m})
  {
    StrOrder();
    SortedSplit(s);
    hide StrLE, TotalOrder, Ascending, LeastOf, SortedStrings, PointsFor, Sum;
    var m := Least(StrLE, s);
    var rest := SortedStrings(s - {m});
    forall i | 0 <= i < |rest| ensures rest[i] in index { assert rest[i] in rest; }
    FactorsSplit(w, index, m, rest);
  }

  lemma {:induction false} PointsGrow(w: Weights, a: Index, b: Index, s: set<string>, t: set<string>)
    requires w.low <= w.medium <= w.high && NoBetter(a, b) && s <= t
    requires (forall p :: p in s ==> p in a) && forall p :: p in t ==> p in b
    ensures SetPoints(w, a, s) <= SetPoints(w, b, t)
    decreases t
  {
    if t == {} {
      assert s == t;
      NoPoints(w, a);
      NoPoints(w, b);
    } else {
      hide SetPoints, StrLE, TotalOrder, Ranked;
      PointsSplit(w, b, t);
      var m := Least(StrLE, t);
      if m in s {
        PointsSplit(w, a, s);
        SameLeast(s, t, m);
        PointsGrow(w, a, b, s - {m}, t - {m});
        WorseScoresMore(w, a[m].0, b[m].0);
      } else {
        PointsGrow(w, a, b, s, t - {m});
      }
    }
  }

  lemma WorseScoresMore(w: Weights, a: string, b: string)
    requires w.low <= w.medium <= w.high && Ranked(a) && Ranked(b) && Order(a) <= Order(b)
    ensures PointsFor(w, a) <= PointsFor(w, b)
  {}

  lemma NoPoints(w: Weights, index: Index)
    ensures SetPoints(w, index, {}) == 0
  {}

  lemma SameLeast(s: set<string>, t: set<string>, m: string)
    requires TotalOrder(StrLE) && s <= t && m in s && m == Least(StrLE, t)
    ensures Least(StrLE, s) == m
  {
    hide StrLE;
  }

  lemma PathPointsGrow(ctx: Context, c: Chain, w: Weights, a: Index, b: Index)
    requires w.low <= w.medium <= w.high && NoBetter(a, b)
    ensures PathPoints(ctx, c, w, a) <= PathPoints(ctx, c, w, b)
  {
    PointsGrow(w, a, b, OnPath(ctx, c, a), OnPath(ctx, c, b));
  }

  lemma BesideGrows(a: seq<string>, b: seq<string>, sink: string)
    requires Subset(a, b) && Beside(a, sink)
    ensures Beside(b, sink)
  {
    hide ForwardSlashes, Module;
  }

  lemma SensitivityGrows(a: Scan, b: Scan, c: Chain)
    requires Subset(a.secrets, b.secrets) && Subset(a.datastores, b.datastores)
    ensures SensitivityPoints(a, c) <= SensitivityPoints(b, c)
  {
    hide Beside, Subset;
    if Beside(a.secrets, c.sinkFile) { BesideGrows(a.secrets, b.secrets, c.sinkFile); }
    if Beside(a.datastores, c.sinkFile) { BesideGrows(a.datastores, b.datastores, c.sinkFile); }
  }

  lemma WeaknessGrows(a: Scan, b: Scan, c: Chain)
    requires Subset(a.weaknesses, b.weaknesses)
    ensures WeaknessPoints(a, c) <= WeaknessPoints(b, c)
  {
    hide ForwardSlashes, PathFiles;
    if PathFiles(c) * Paths(a.weaknesses) != {} {
      var f :| f in PathFiles(c) * Paths(a.weaknesses);
      assert f in PathFiles(c) * Paths(b.weaknesses);
    }
  }

  /** Adding any advisory, supply-chain issue, secret, datastore or weakness, and removing auth
      signals, never lowers the raw score, the score or the tier of any chain. */
  lemma MoreEvidenceNeverLowersAScore(ctx: Context, c: Chain, surfaces: seq<Surface>, surfaces': seq<Surface>,
                                      scan: Scan, scan': Scan, x: Indexed, x': Indexed)
    requires LessAuth(surfaces, surfaces') && MoreEvidence(scan, scan')
    requires Indexes(x.advisories, scan.advisories, false) && Indexes(x'.advisories, scan'.advisories, false)
    requires Indexes(x.issues, scan.issues, true) && Indexes(x'.issues, scan'.issues, true)
    ensures
      var before := Raw(ctx, SurfaceOf(surfaces, c), scan, x, c);
      var after := Raw(ctx, SurfaceOf(surfaces', c), scan', x', c);
      before <= after && Clamp(before) <= Clamp(after)
      && TierRank(TierOf(Clamp(before))) <= TierRank(TierOf(Clamp(after)))
  {
    hide PathPoints, WeaknessPoints, SensitivityPoints, SurfaceOf, BasePoints, HopPoints, Indexes, NoBetter, LessAuth, Subset;
    SurfaceOfLess(surfaces, surfaces', c);
    IndexNoBetter(x.advisories, x'.advisories, scan.advisories, scan'.advisories, false);
    IndexNoBetter(x.issues, x'.issues, scan.issues, scan'.issues, true);
    PathPointsGrow(ctx, c, CVE_ON_PATH, x.advisories, x'.advisories);
    PathPointsGrow(ctx, c, SUPPLY_CHAIN_ON_PATH, x.issues, x'.issues);
    WeaknessGrows(scan, scan', c);
    SensitivityGrows(scan, scan', c);
  }

  // ---- the score in plain terms ----

  ghost predicate Lone(surfaces: seq<Surface>, p: Surface -> bool, i: int) {
    0 <= i < |surfaces| && p(surfaces[i]) && forall j :: 0 <= j < |surfaces| && j != i ==> !p(surfaces[j])
  }

  ghost predicate Leading(surfaces: seq<Surface>, p: Surface -> bool, i: int) {
    0 <= i < |surfaces| && p(surfaces[i]) && forall j :: 0 <= j < i ==> !p(surfaces[j])
  }

  /** The surface of the chain's route: the first with its verb, route and file; failing that, the only
      one with its verb and route; failing that, the only one in its file. */
  ghost predicate IsSurfaceOf(surfaces: seq<Surface>, c: Chain, r: Option<Surface>) {
    var route := (s: Surface) => s.verb == c.routeVerb && s.route == c.routePath;
    var file := (s: Surface) => ForwardSlashes(s.file) == ForwardSlashes(c.routeFile);
    var exact := (s: Surface) => s.verb == c.routeVerb && s.route == c.routePath && ForwardSlashes(s.file) == ForwardSlashes(c.routeFile);
    || (exists i :: Leading(surfaces, exact, i) && r == Some(surfaces[i]))
    || (NoneOf(surfaces, exact) && exists i :: Lone(surfaces, route, i) && r == Some(surfaces[i]))
    || (NoneOf(surfaces, exact) && NoLone(surfaces, route) && exists i :: Lone(surfaces, file, i) && r == Some(surfaces[i]))
    || (NoneOf(surfaces, exact) && NoLone(surfaces, route) && NoLone(surfaces, file) && r == None)
  }

  ghost predicate NoneOf(surfaces: seq<Surface>, p: Surface -> bool) {
    forall i :: 0 <= i < |surfaces| ==> !p(surfaces[i])
  }

  ghost predicate NoLone(surfaces: seq<Surface>, p: Surface -> bool) {
    forall i :: !Lone(surfaces, p, i)
  }

  lemma {:induction false} MatchingIs(surfaces: seq<Surface>, p: Surface -> bool)
    ensures Matching(surfaces, p) == [] <==> NoneOf(surfaces, p)
    ensures |Matching(surfaces, p)| == 1 ==> exists i :: Lone(surfaces, p, i) && surfaces[i] == Matching(surfaces, p)[0]
    ensures |Matching(surfaces, p)| != 1 ==> NoLone(surfaces, p)
  {
    if surfaces != [] {
      var k := |surfaces| - 1;
      var front := surfaces[..k];
      MatchingIs(front, p);
      MatchingNext(front, surfaces[k], p);
      assert surfaces == front + [surfaces[k]];
      LoneNext(front, surfaces[k], p);
      hide Matching, Lone;
      if !p(surfaces[k]) { assert Matching(surfaces, p) == Matching(front, p); }
    }
  }

  lemma LoneNext(surfaces: seq<Surface>, s: Surface, p: Surface -> bool)
    ensures NoneOf(surfaces + [s], p) <==> NoneOf(surfaces, p) && !p(s)
    ensures !p(s) ==> forall i :: Lone(surfaces + [s], p, i) <==> Lone(surfaces, p, i)
    ensures p(s) && NoneOf(surfaces, p) ==> Lone(surfaces + [s], p, |surfaces|)
    ensures p(s) && !NoneOf(surfaces, p) ==> NoLone(surfaces + [s], p)
  {
    var more := surfaces + [s];
    assert forall i :: 0 <= i < |surfaces| ==> more[i] == surfaces[i];
    assert more[|surfaces|] == s;
    if !p(s) {
      forall i ensures Lone(more, p, i) <==> Lone(surfaces, p, i) {}
    }
  }

  lemma SurfaceOfIs(surfaces: seq<Surface>, c: Chain)
    ensures IsSurfaceOf(surfaces, c, SurfaceOf(surfaces, c))
  {
    hide ForwardSlashes, Matching, FirstWhere;
    var route := (s: Surface) => s.verb == c.routeVerb && s.route == c.routePath;
    var file := (s: Surface) => ForwardSlashes(s.file) == ForwardSlashes(c.routeFile);
    var exact := (s: Surface) => s.verb == c.routeVerb && s.route == c.routePath && ForwardSlashes(s.file) == ForwardSlashes(c.routeFile);
    MatchingIs(surfaces, s => SameRoute(s, c));
    MatchingIs(surfaces, s => SameFile(s, c));
    LoneAgree(surfaces, s => SameRoute(s, c), route);
    LoneAgree(surfaces, s => SameFile(s, c), file);
    var first := FirstWhere(surfaces, s => Exact(s, c));
    if first.Some? { assert Leading(surfaces, exact, first.value); } else { assert NoneOf(surfaces, exact); }
  }

  lemma LoneAgree(surfaces: seq<Surface>, p: Surface -> bool, q: Surface -> bool)
    requires forall s :: p(s) == q(s)
    ensures forall i :: Lone(surfaces, p, i) <==> Lone(surfaces, q, i)
  {}

  /** The directory of a file, or nothing if its path has no slash. */
  ghost predicate InDirectory(file: string, directory: string) {
    var path := ForwardSlashes(file);
    if '/' in path then exists name :: '/' !in name && path == directory + "/" + name else directory == ""
  }

  lemma {:induction false} CutAtLastSlashIs(path: string)
    ensures '/' !in path ==> CutAtLastSlash(path) == ""
    ensures '/' in path ==> exists name :: '/' !in name && path == CutAtLastSlash(path) + "/" + name
  {
    if path != [] {
      var k := |path| - 1;
      assert path == path[..k] + [path[k]];
      if path[k] == '/' {
        assert path == CutAtLastSlash(path) + "/" + "";
      } else if '/' in path {
        CutAtLastSlashIs(path[..k]);
        var name :| '/' !in name && path[..k] == CutAtLastSlash(path[..k]) + "/" + name;
        assert path == CutAtLastSlash(path) + "/" + (name + [path[k]]);
      } else {
        CutAtLastSlashIs(path[..k]);
      }
    }
  }

  lemma ModuleIff(file: string, directory: string)
    ensures Module(file) == directory <==> InDirectory(file, directory)
  {
    hide CutAtLastSlash;
    var path := ForwardSlashes(file);
    CutAtLastSlashIs(path);
    if '/' in path {
      var name :| '/' !in name && path == CutAtLastSlash(path) + "/" + name;
      if other :| '/' !in other && path == directory + "/" + other {
        CutAtLast('/', CutAtLastSlash(path), name, directory, other);
      }
    }
  }

  /** One of the files is the sink's, or in its directory. */
  ghost predicate HasNeighbour(files: seq<string>, sink: string) {
    exists i, d :: 0 <= i < |files| && Near(files[i], sink, d)
  }

  ghost predicate Near(file: string, sink: string, directory: string) {
    ForwardSlashes(file) == ForwardSlashes(sink) || (InDirectory(file, directory) && InDirectory(sink, directory))
  }

  lemma BesideIff(files: seq<string>, sink: string)
    ensures Beside(files, sink) <==> HasNeighbour(files, sink)
  {
    hide ForwardSlashes, Module, InDirectory;
    if Beside(files, sink) {
      var f :| f in files && (ForwardSlashes(f) == ForwardSlashes(sink) || Module(f) == Module(sink));
      var i :| 0 <= i < |files| && files[i] == f;
      ModuleIff(f, Module(f));
      ModuleIff(sink, Module(f));
      assert Near(files[i], sink, Module(f));
    }
    if i, d :| 0 <= i < |files| && Near(files[i], sink, d) {
      ModuleIff(files[i], d);
      ModuleIff(sink, d);
      assert files[i] in files;
    }
  }

  /** The files of the path: those of the route and the sink, and those in between. */
  ghost predicate Passes(c: Chain, path: string) {
    path == ForwardSlashes(c.routeFile) || path == ForwardSlashes(c.sinkFile)
    || exists i :: 0 <= i < |c.files| && path == ForwardSlashes(c.files[i])
  }

  lemma PathFilesAre(c: Chain, path: string)
    ensures path in PathFiles(c) <==> Passes(c, path)
  {
    hide ForwardSlashes;
    if i :| 0 <= i < |c.files| && path == ForwardSlashes(c.files[i]) { assert c.files[i] in c.files; }
  }

  ghost predicate WeakSpot(c: Chain, weaknesses: seq<string>) {
    exists i :: 0 <= i < |weaknesses| && Passes(c, ForwardSlashes(weaknesses[i]))
  }

  lemma WeakSpotIff(c: Chain, weaknesses: seq<string>)
    ensures PathFiles(c) * Paths(weaknesses) != {} <==> WeakSpot(c, weaknesses)
  {
    hide ForwardSlashes, PathFiles, Passes;
    if PathFiles(c) * Paths(weaknesses) != {} {
      var f :| f in PathFiles(c) * Paths(weaknesses);
      PathFilesAre(c, f);
      var w :| w in weaknesses && ForwardSlashes(w) == f;
      var i :| 0 <= i < |weaknesses| && weaknesses[i] == w;
      assert Passes(c, ForwardSlashes(weaknesses[i]));
    }
    if i :| 0 <= i < |weaknesses| && Passes(c, ForwardSlashes(weaknesses[i])) {
      PathFilesAre(c, ForwardSlashes(weaknesses[i]));
      assert weaknesses[i] in weaknesses;
      assert ForwardSlashes(weaknesses[i]) in PathFiles(c) * Paths(weaknesses);
    }
  }

  /** The indexed packages of one severity that a file on the path imports; an unknown one counts as medium. */
  ghost function Imported(ctx: Context, c: Chain, index: Index, severity: string): set<string> {
    set p | p in index && Imports(ctx, c, p) && RatedAs(index[p].0, severity)
  }

  ghost predicate RatedAs(rating: string, severity: string) {
    rating == severity || (severity == "medium" && rating != "high" && rating != "low")
  }

  ghost predicate Imports(ctx: Context, c: Chain, p: string) {
    exists path :: Passes(c, path) && p in ctx.imports(path)
  }

  lemma OnPathIs(ctx: Context, c: Chain, index: Index, p: string)
    ensures p in OnPath(ctx, c, index) <==> p in index && Imports(ctx, c, p)
  {
    hide PathFiles, Passes;
    if p in OnPath(ctx, c, index) {
      var f :| f in PathFiles(c) && p in ctx.imports(f);
      PathFilesAre(c, f);
    }
    if path :| Passes(c, path) && p in ctx.imports(path) { PathFilesAre(c, path); }
  }

  ghost function RatedSo(index: Index, s: set<string>, severity: string): set<string>
    requires forall p :: p in s ==> p in index
  {
    set p | p in s && RatedAs(index[p].0, severity)
  }

  /** The packages on the path add their weights, each once. */
  lemma {:induction false} SetPointsAre(w: Weights, index: Index, s: set<string>)
    requires forall p :: p in s ==> p in index
    ensures SetPoints(w, index, s) ==
      w.high * |RatedSo(index, s, "high")| + w.medium * |RatedSo(index, s, "medium")| + w.low * |RatedSo(index, s, "low")|
    decreases s
  {
    if s == {} {
      NoPoints(w, index);
      assert RatedSo(index, s, "high") == RatedSo(index, s, "medium") == RatedSo(index, s, "low") == {};
    } else {
      PointsSplit(w, index, s);
      hide SetPoints, StrLE, TotalOrder, LeastOf, PointsFor, RatedSo;
      var m := Least(StrLE, s);
      SetPointsAre(w, index, s - {m});
      OneRated(index, s, m, "high");
      OneRated(index, s, m, "medium");
      OneRated(index, s, m, "low");
      OneWeight(w, index[m].0, |RatedSo(index, s - {m}, "high")|, |RatedSo(index, s - {m}, "medium")|,
                |RatedSo(index, s - {m}, "low")|);
    }
  }

  lemma OneRated(index: Index, s: set<string>, m: string, severity: string)
    requires m in s && forall p :: p in s ==> p in index
    ensures |RatedSo(index, s, severity)| ==
      |RatedSo(index, s - {m}, severity)| + if RatedAs(index[m].0, severity) then 1 else 0
  {
    hide RatedAs;
    assert RatedSo(index, s, severity) ==
      RatedSo(index, s - {m}, severity) + if RatedAs(index[m].0, severity) then {m} else {};
  }

  lemma OneWeight(w: Weights, rating: string, high: nat, medium: nat, low: nat)
    ensures
      w.high * (high + if RatedAs(rating, "high") then 1 else 0)
      + w.medium * (medium + if RatedAs(rating, "medium") then 1 else 0)
      + w.low * (low + if RatedAs(rating, "low") then 1 else 0) ==
      PointsFor(w, rating) + w.high * high + w.medium * medium + w.low * low
  {
    var h, m, l := RatedAs(rating, "high"), RatedAs(rating, "medium"), RatedAs(rating, "low");
    assert w.high * (high + 1) == w.high * high + w.high;
    assert w.medium * (medium + 1) == w.medium * medium + w.medium;
    assert w.low * (low + 1) == w.low * low + w.low;
    assert (h && !m && !l) || (!h && m && !l) || (!h && !m && l);
  }

  lemma PathPointsAre(ctx: Context, c: Chain, w: Weights, index: Index)
    ensures PathPoints(ctx, c, w, index) ==
      w.high * |Imported(ctx, c, index, "high")| + w.medium * |Imported(ctx, c, index, "medium")|
      + w.low * |Imported(ctx, c, index, "low")|
  {
    hide Imports, RatedAs, PointsFor, SortedStrings, Sum;
    var s := OnPath(ctx, c, index);
    SetPointsAre(w, index, s);
    hide OnPath;
    forall p ensures p in s <==> p in index && Imports(ctx, c, p) { OnPathIs(ctx, c, index, p); }
    assert RatedSo(index, s, "high") == Imported(ctx, c, index, "high");
    assert RatedSo(index, s, "medium") == Imported(ctx, c, index, "medium");
    assert RatedSo(index, s, "low") == Imported(ctx, c, index, "low");
  }

  ghost function KindPoints(ctx: Context, kind: string): int {
    if kind in ["sql_execute", "exec", "eval", "subprocess_shell", "unsafe_deserialization"] then 35
    else if kind == "ssti" then 30
    else if kind == "nosql_injection" then 25
    else if kind == "dynamic_open" then 22
    else if kind == "ssrf" then 20
    else if kind == "open_redirect" then 15
    else ctx.kindBase(kind)
  }

  /** What a chain that enters at this surface is worth, item by item. */
  ghost function Worth(ctx: Context, entry: Option<Surface>, scan: Scan, x: Indexed, c: Chain): int {
    KindPoints(ctx, c.sinkKind)
    + (if entry.Some? && entry.value.exposure == "public" then 20 else if entry.Some? && entry.value.exposure == "internal" then 5 else 10)
    + (if entry.Some? && |entry.value.authSignals| > 0 then 0 else 20)
    + (if 0 <= c.hops <= 2 then 15 - 5 * c.hops else 3)
    + (if HasNeighbour(scan.secrets, c.sinkFile) then 15 else if HasNeighbour(scan.datastores, c.sinkFile) then 10 else 0)
    + (if WeakSpot(c, scan.weaknesses) then 5 else 0)
    + 15 * |Imported(ctx, c, x.advisories, "high")| + 8 * |Imported(ctx, c, x.advisories, "medium")|
    + 3 * |Imported(ctx, c, x.advisories, "low")|
    + 8 * |Imported(ctx, c, x.issues, "high")| + 4 * |Imported(ctx, c, x.issues, "medium")|
    + 2 * |Imported(ctx, c, x.issues, "low")|
  }

  lemma BasePointsAre(ctx: Context, kind: string)
    ensures BasePoints(ctx, kind) == KindPoints(ctx, kind)
  {}

  /** The score, in plain terms. */
  lemma RawIsWorth(ctx: Context, entry: Option<Surface>, scan: Scan, x: Indexed, c: Chain)
    ensures Raw(ctx, entry, scan, x, c) == Worth(ctx, entry, scan, x, c)
  {
    hide BasePoints, KindPoints, PathPoints, Imported, Beside, HasNeighbour, WeakSpot, PathFiles, Paths;
    BasePointsAre(ctx, c.sinkKind);
    BesideIff(scan.secrets, c.sinkFile);
    BesideIff(scan.datastores, c.sinkFile);
    WeakSpotIff(c, scan.weaknesses);
    PathPointsAre(ctx, c, CVE_ON_PATH, x.advisories);
    PathPointsAre(ctx, c, SUPPLY_CHAIN_ON_PATH, x.issues);
  }

  /** Factors about the sink's neighbours and weak spots; those about the entry are always there, auth included. */
  ghost function NotesBesides(scan: Scan, c: Chain): nat {
    (if HasNeighbour(scan.secrets, c.sinkFile) || HasNeighbour(scan.datastores, c.sinkFile) then 1 else 0)
    + if WeakSpot(c, scan.weaknesses) then 1 else 0
  }

  lemma NotesAre(scan: Scan, c: Chain)
    ensures |SinkFactors(scan, c)| + |GapFactors(scan, c)| == NotesBesides(scan, c)
  {
    hide Beside, HasNeighbour, WeakSpot, PathFiles, Paths;
    BesideIff(scan.secrets, c.sinkFile);
    BesideIff(scan.datastores, c.sinkFile);
    WeakSpotIff(c, scan.weaknesses);
  }

  lemma FourFactors(ctx: Context, surface: Option<Surface>, c: Chain)
    ensures |SurfaceFactors(ctx, surface, c)| == 4
  {}

  // ---- packages in plain terms ----

  /** `at` are the places of the characters of a name that are kept: all but those that continue a run. */
  ghost predicate KeptAt(name: string, at: seq<nat>) {
    && (forall i, j :: 0 <= i < j < |at| ==> at[i] < at[j])
    && forall i: nat :: i in at <==> i < |name| && !InRun(name, i)
  }

  /** The character continues a run of `-`, `_` and `.`. */
  ghost predicate InRun(name: string, i: nat) {
    0 < i < |name| && name[i] in ['-', '_', '.'] && name[i - 1] in ['-', '_', '.']
  }

  /** What is kept, a dash for each run. */
  ghost predicate Collapsed(name: string, at: seq<nat>, r: string) {
    && |at| == |r|
    && forall i :: 0 <= i < |at| ==> at[i] < |name| && r[i] == if name[at[i]] in ['_', '.'] then '-' else name[at[i]]
  }

  lemma {:induction false} CollapseRunsKeeps(name: string) returns (at: seq<nat>)
    ensures KeptAt(name, at) && Collapsed(name, at, CollapseRuns(name))
  {
    if name == [] {
      at := [];
    } else {
      hide KeptAt, Collapsed;
      var k := |name| - 1;
      at := CollapseRunsKeeps(name[..k]);
      assert name[..k] + [name[k]] == name;
      KeptNext(name[..k], name[k], at, CollapseRuns(name[..k]));
      RunNext(name[..k], name[k]);
      if !(RunChar(name[k]) && k > 0 && RunChar(name[k - 1])) { at := at + [k]; }
    }
  }

  lemma RunNext(name: string, c: char)
    ensures forall i: nat :: i < |name| ==> (InRun(name + [c], i) <==> InRun(name, i))
    ensures InRun(name + [c], |name|) <==> RunChar(c) && name != "" && RunChar(name[|name| - 1])
  {
    var more := name + [c];
    assert forall i :: 0 <= i < |name| ==> more[i] == name[i];
  }

  lemma KeptNext(name: string, c: char, at: seq<nat>, r: string)
    requires KeptAt(name, at) && Collapsed(name, at, r)
    ensures
      var more := name + [c];
      if InRun(more, |name|) then KeptAt(more, at) && Collapsed(more, at, r)
      else KeptAt(more, at + [|name|]) && Collapsed(more, at + [|name|], r + [if RunChar(c) then '-' else c])
  {
    RunNext(name, c);
    hide InRun;
    assert forall j :: 0 <= j < |at| ==> at[j] in at;
  }

  /** Names of the same key: on PyPI up to case and runs of `-`, `_` and `.`, elsewhere up to case. */
  lemma PackageKeyIs(r: Risk) returns (name: string, at: seq<nat>)
    ensures PackageKey(r) == Lower(name)
    ensures if r.ecosystem == "pypi" then KeptAt(r.package, at) && Collapsed(r.package, at, name) else name == r.package
  {
    name := r.package;
    if r.ecosystem == "pypi" {
      at := CollapseRunsKeeps(r.package);
      name := CollapseRuns(r.package);
    } else {
      at := [];
    }
  }

  /** Some risk about the package has this severity; an unknown severity counts as medium. */
  ghost predicate Reports(risks: seq<Risk>, skip: bool, k: string, severity: string) {
    exists i :: 0 <= i < |risks| && PackageKey(risks[i]) == k && (skip ==> risks[i].package != "")
      && RatedAs(risks[i].severity, severity)
  }

  /** A package is indexed if a risk is about it, with the worst severity. */
  lemma IndexIs(index: Index, risks: seq<Risk>, skip: bool, k: string)
    requires Indexes(index, risks, skip)
    ensures k in index <==> Reports(risks, skip, k, "high") || Reports(risks, skip, k, "medium") || Reports(risks, skip, k, "low")
    ensures k in index ==>
      var worst := if Reports(risks, skip, k, "high") then "high" else if Reports(risks, skip, k, "medium") then "medium" else "low";
      index[k].0 == worst
  {
    hide PackageKey;
    assert IndexesAt(index, risks, skip, k);
    forall r | r in risks && On(r, k, skip) ensures Reports(risks, skip, k, Rated(r)) {
      var i :| 0 <= i < |risks| && risks[i] == r;
    }
    forall i | 0 <= i < |risks| && PackageKey(risks[i]) == k && (skip ==> risks[i].package != "")
      ensures k in index && Order(Rated(risks[i])) <= Order(index[k].0)
    {
      assert risks[i] in risks && On(risks[i], k, skip);
    }
  }
}
