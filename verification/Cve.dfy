/** Looking up advisories for all dependencies in four passes: resolve and deduplicate, serve from
    the cache, query the misses in batches, fan the answers out (src/attackmap/cve.py). */
module Cve {
  import opened Lists
  import opened Merge
  import opened Orders
  import opened Osv
  import opened Wrappers

  const OSV_ECOSYSTEM: map<string, string> := map[
    "pypi" := "PyPI", "npm" := "npm", "go" := "Go", "cargo" := "crates.io", "composer" := "Packagist",
    "maven" := "Maven", "nuget" := "NuGet", "gem" := "RubyGems", "hex" := "Hex", "pub" := "Pub",
    "conan" := "ConanCenter", "vcpkg" := "vcpkg", "swiftpm" := "SwiftURL", "carthage" := "SwiftURL"]

  const INVENTORY_ONLY_ECOSYSTEMS: set<string> := {"cocoapods", "cmake"}

  datatype Dependency = Dependency(
    ecosystem: string, name: string, version: Option<string>, resolved: bool, direct: bool, via: Option<string>,
    evidence: string)

  /** The name and version OSV indexes a dependency under, read by pattern from its fields; any
      functions will do. */
  datatype Naming = Naming(osvName: Dependency -> Option<string>, concrete: Option<string> -> Option<string>)

  /** A unique package: what the cache and the server are asked about. */
  datatype Package = Package(ecosystem: string, name: string, version: string)

  function LStripV(version: string): string {
    if version != [] && version[0] == 'v' then LStripV(version[1..]) else version
  }

  /** The version to ask about: a locked one verbatim, a range by its lower bound. */
  function ConcreteVersion(n: Naming, d: Dependency): Option<string> {
    if d.resolved && d.version.Some? && d.version.value != "" then
      Some(if d.ecosystem == "go" then LStripV(d.version.value) else d.version.value)
    else n.concrete(d.version)
  }

  /** The package a dependency is looked up as, if it is looked up at all. */
  function PackageOf(n: Naming, d: Dependency): Option<Package> {
    if d.ecosystem !in OSV_ECOSYSTEM then None
    else
      var name := n.osvName(d);
      var version := ConcreteVersion(n, d);
      if name.None? || version.None? then None else Some(Package(d.ecosystem, name.value, version.value))
  }

  function QueryOf(p: Package): (q: Query) {
    Query(if p.ecosystem in OSV_ECOSYSTEM then OSV_ECOSYSTEM[p.ecosystem] else "", p.name, p.version)
  }

  class LookupSummary {
    var queried: nat
    var cached: nat
    var skippedNoVersion: nat
    var skippedOffline: nat
    var networkErrors: nat
    var inventoryOnly: map<string, nat>

    constructor ()
      ensures queried == cached == skippedNoVersion == skippedOffline == networkErrors == 0
      ensures inventoryOnly == map[]
    {
      queried, cached, skippedNoVersion, skippedOffline, networkErrors := 0, 0, 0, 0, 0;
      inventoryOnly := map[];
    }
  }

  // ---- calls ----

  /** One exchange, its failure counted. */
  method Http(wire: Wire, summary: LookupSummary, req: Request) returns (resp: Response)
    requires wire.Faithful()
    modifies wire, summary`networkErrors
    ensures wire.Faithful() && wire.log == old(wire.log) + [Exchange(req, resp)]
    ensures resp == wire.server(|old(wire.log)|, req)
    ensures summary.networkErrors == old(summary.networkErrors) + ErrorOf(Exchange(req, resp))
  {
    resp := wire.Send(req);
    if resp.Unreachable? {
      summary.networkErrors := summary.networkErrors + 1;
    } else if resp.Garbled? {
      summary.networkErrors := summary.networkErrors + 1;
    } else if !Answered(Exchange(req, resp)) && !req.Detail? {
      summary.networkErrors := summary.networkErrors + 1;
    }
  }

  /** The calls made and the errors counted so far. */
  twostate predicate Called(wire: Wire, summary: LookupSummary)
    reads wire, summary
  {
    && wire.Faithful() && old(wire.log) <= wire.log
    && summary.networkErrors - Errors(wire.log) == old(summary.networkErrors) - Errors(old(wire.log))
  }

  /** New calls were made, and the last of them failed. */
  ghost predicate LastFailed(before: seq<Exchange>, log: seq<Exchange>) {
    |log| > |before| && !Answered(log[|log| - 1])
  }

  /** The last of the new calls was for a record the listing names. */
  ghost predicate RecordFailed(before: seq<Exchange>, log: seq<Exchange>, refs: seq<string>) {
    LastFailed(before, log) && log[|log| - 1].req.Detail? && log[|log| - 1].req.id in refs && log[|log| - 1].req.id != ""
  }

  method FetchBatch(wire: Wire, summary: LookupSummary, queries: seq<Query>) returns (items: Option<seq<Item>>)
    requires wire.Faithful()
    modifies wire, summary`networkErrors
    ensures Called(wire, summary) && |wire.log| == |old(wire.log)| + 1
    ensures wire.log[|old(wire.log)|].req == Batch(queries)
    ensures items.Some? <==> Answered(wire.log[|old(wire.log)|])
    ensures items.Some? ==> wire.log[|old(wire.log)|].resp == Results(items.value)
  {
    var resp := Http(wire, summary, Batch(queries));
    assert wire.log[..|wire.log| - 1] == old(wire.log);
    items := if resp.Results? && |resp.items| == |queries| then Some(resp.items) else None;
  }

  method FetchDetail(wire: Wire, summary: LookupSummary, id: string) returns (entry: Option<Entry>)
    requires wire.Faithful()
    modifies wire, summary`networkErrors
    ensures Called(wire, summary) && |wire.log| == |old(wire.log)| + 1
    ensures wire.log[|old(wire.log)|].req == Detail(id) && (entry.Some? <==> Answered(wire.log[|old(wire.log)|]))
    ensures entry.Some? ==> Fetched(wire.log, id, entry.value)
  {
    var resp := Http(wire, summary, Detail(id));
    assert wire.log[..|wire.log| - 1] == old(wire.log);
    assert wire.log[|wire.log| - 1] == Exchange(Detail(id), resp);
    entry := if resp.Record? then Some(resp.entry) else None;
  }

  /** Details fetched earlier in the run. */
  ghost predicate Remembered(log: seq<Exchange>, memo: map<string, Entry>) {
    forall id :: id in memo ==> Fetched(log, id, memo[id])
  }

  lemma RememberedGrows(log: seq<Exchange>, more: seq<Exchange>, memo: map<string, Entry>)
    requires log <= more && Remembered(log, memo)
    ensures Remembered(more, memo)
  {
    forall id | id in memo ensures Fetched(more, id, memo[id]) { assert Fetched(log, id, memo[id]); }
  }

  /** The full record of every id a listing names, or nothing at all if one cannot be fetched. */
  method AssembleDetails(wire: Wire, summary: LookupSummary, refs: seq<string>, details: map<string, Entry>)
    returns (payload: Option<seq<Entry>>, memo: map<string, Entry>)
    requires wire.Faithful() && Remembered(wire.log, details) && Economical(wire.log, details)
    modifies wire, summary`networkErrors
    ensures Called(wire, summary) && Remembered(wire.log, memo) && Economical(wire.log, memo)
    ensures forall k :: |old(wire.log)| <= k < |wire.log| ==> wire.log[k].req.Detail?
    ensures payload.Some? ==> Covers(wire.log, refs, payload.value)
    ensures payload.None? ==> RecordFailed(old(wire.log), wire.log, refs)
  {
    hide Economical, Covers, Remembered;
    memo := details;
    var full: seq<Entry> := [];
    assert Covers(wire.log, refs[..0], full) by { NothingToCover(wire.log); }
    for i := 0 to |refs|
      invariant Called(wire, summary) && Remembered(wire.log, memo) && Economical(wire.log, memo)
      invariant forall k :: |old(wire.log)| <= k < |wire.log| ==> wire.log[k].req.Detail?
      invariant Covers(wire.log, refs[..i], full)
    {
      assert refs[..i + 1][..i] == refs[..i];
      var id := refs[i];
      if id != "" {
        ghost var before := wire.log;
        if id !in memo {
          var entry := FetchDetail(wire, summary, id);
          RememberedGrows(before, wire.log, memo);
          FetchIsEconomical(before, wire.log, memo, id, entry);
          if entry.None? { return None, memo; }
          RememberedNext(wire.log, memo, id, entry.value);
          memo := memo[id := entry.value];
        }
        assert Fetched(wire.log, id, memo[id]) by { RememberedAt(wire.log, memo, id); }
        CoversNext(before, wire.log, refs[..i], full, id, memo[id]);
        full := full + [memo[id]];
      } else {
        CoversSkip(wire.log, refs[..i], full);
      }
      assert refs[..i + 1] == refs[..i] + [id];
    }
    assert refs[..|refs|] == refs;
    payload := Some(full);
  }

  lemma CoversSkip(log: seq<Exchange>, refs: seq<string>, payload: seq<Entry>)
    requires Covers(log, refs, payload)
    ensures Covers(log, refs + [""], payload)
  {
    assert (refs + [""])[..|refs|] == refs;
  }

  lemma NothingToCover(log: seq<Exchange>)
    ensures Covers(log, [], [])
  {}

  lemma RememberedAt(log: seq<Exchange>, memo: map<string, Entry>, id: string)
    requires Remembered(log, memo) && id in memo
    ensures Fetched(log, id, memo[id])
  {}

  lemma RememberedNext(log: seq<Exchange>, memo: map<string, Entry>, id: string, e: Entry)
    requires Remembered(log, memo) && Fetched(log, id, e)
    ensures Remembered(log, memo[id := e])
  {}

  lemma FetchIsEconomical(log: seq<Exchange>, more: seq<Exchange>, memo: map<string, Entry>, id: string, entry: Option<Entry>)
    requires Economical(log, memo) && log <= more && |more| == |log| + 1 && id !in memo
    requires more[|log|].req == Detail(id) && (entry.Some? <==> Answered(more[|log|]))
    ensures entry.None? ==> Economical(more, memo)
    ensures entry.Some? ==> Economical(more, memo[id := entry.value])
  {
    assert forall k :: 0 <= k < |log| ==> more[k] == log[k];
  }

  lemma CoversNext(log: seq<Exchange>, more: seq<Exchange>, refs: seq<string>, payload: seq<Entry>, id: string, e: Entry)
    requires log <= more && Covers(log, refs, payload) && id != "" && Fetched(more, id, e)
    ensures Covers(more, refs + [id], payload + [e])
  {
    assert (refs + [id])[..|refs|] == refs;
    var ids := NonEmpty(refs);
    forall j | 0 <= j < |ids| + 1 ensures Fetched(more, (ids + [id])[j], (payload + [e])[j]) {
      if j < |ids| { assert Fetched(log, ids[j], payload[j]); }
    }
  }

  /** Every page of a package's answer, or nothing at all if one fails. */
  method FetchPaged(wire: Wire, summary: LookupSummary, q: Query, ghost left: PagesLeft) returns (payload: Option<seq<Entry>>)
    requires wire.Faithful() && FinitelyPaged(wire.server, left)
    modifies wire, summary`networkErrors
    ensures Called(wire, summary)
    ensures forall k :: |old(wire.log)| <= k < |wire.log| ==> wire.log[k].req.Page?
    ensures payload.Some? ==> exists a: nat, n: nat :: AllPages(wire.log, a, n, q, payload.value)
    ensures payload.None? ==> LastFailed(old(wire.log), wire.log) && wire.log[|wire.log| - 1].req.query == q
  {
    hide Gathered, PagesFrom, FinitelyPaged, Errors, ErrorOf, AllPages;
    ghost var a := |wire.log|;
    ghost var n: nat := 0;
    var all: seq<Entry> := [];
    var token: Option<string> := None;
    NoPagesYet(wire.log, q);
    while true
      invariant Called(wire, summary) && |wire.log| == a + n
      invariant forall k :: a <= k < |wire.log| ==> wire.log[k].req.Page?
      invariant PagesFrom(wire.log, a, n, q) && all == Gathered(wire.log, a, n)
      invariant if n == 0 then token.None? else token.Some? && wire.log[a + n - 1].resp.PageOf? && wire.log[a + n - 1].resp.next == token
      decreases left(a + n, q, token)
    {
      ghost var before := wire.log;
      var resp := Http(wire, summary, Page(q, token));
      ErrorsNext(before, Exchange(Page(q, token), resp));
      assert wire.log[a + n] == Exchange(Page(q, token), resp);
      if !resp.PageOf? { return None; }
      PageArrives(before, wire.log, a, n, q);
      if resp.next.Some? { StillPaging(wire.server, left, a + n, q, token); }
      all := all + resp.vulns;
      token := resp.next;
      n := n + 1;
      if token.None? {
        PagesEnd(wire.log, a, n, q);
        return Some(all);
      }
    }
  }

  lemma NoPagesYet(log: seq<Exchange>, q: Query)
    ensures PagesFrom(log, |log|, 0, q) && Gathered(log, |log|, 0) == []
  {}

  lemma ErrorsNext(log: seq<Exchange>, e: Exchange)
    ensures Errors(log + [e]) == Errors(log) + ErrorOf(e)
  {
    assert (log + [e])[..|log|] == log;
  }

  lemma StillPaging(server: Server, left: PagesLeft, n: nat, q: Query, token: Option<string>)
    requires FinitelyPaged(server, left)
    requires server(n, Page(q, token)).PageOf? && server(n, Page(q, token)).next.Some?
    ensures left(n + 1, q, server(n, Page(q, token)).next) < left(n, q, token)
  {}

  lemma PagesEnd(log: seq<Exchange>, a: nat, n: nat, q: Query)
    requires n > 0 && PagesFrom(log, a, n, q) && log[a + n - 1].resp.PageOf? && log[a + n - 1].resp.next.None?
    ensures AllPages(log, a, n, q, Gathered(log, a, n))
  {}

  lemma PageArrives(log: seq<Exchange>, more: seq<Exchange>, a: nat, n: nat, q: Query)
    requires log <= more && |more| == |log| + 1 && |log| == a + n && PagesFrom(log, a, n, q)
    requires PageAt(more, a, a + n, q)
    ensures PagesFrom(more, a, n + 1, q)
    ensures Gathered(more, a, n + 1) == Gathered(log, a, n) + more[a + n].resp.vulns
  {
    GatheredGrows(log, more, a, n);
    forall i | a <= i < a + n ensures PageAt(more, a, i, q) { assert PageAt(log, a, i, q); }
  }

  // ---- the cache ----

  /** What a package's cache file is named after (the digest of it, taken to be injective). */
  function CacheKey(p: Package): string {
    p.ecosystem + "|" + p.name + "|" + p.version
  }

  type Files = map<string, (int, seq<Entry>)>

  /** The cached payload, if it is there and not too old; a ttl of zero never expires. */
  function Fresh(files: Files, p: Package, now: int, ttl: nat): Option<seq<Entry>> {
    var key := CacheKey(p);
    if key !in files || (ttl > 0 && now - files[key].0 > ttl) then None else Some(files[key].1)
  }

  class CacheDir {
    var files: Files
    const writable: string -> bool

    constructor (files: Files, writable: string -> bool)
      ensures this.files == files && this.writable == writable
    {
      this.files := files;
      this.writable := writable;
    }

    /** A failed write is ignored. */
    method Write(p: Package, payload: seq<Entry>, now: int)
      modifies this
      ensures files == if writable(CacheKey(p)) then old(files)[CacheKey(p) := (now, payload)] else old(files)
    {
      if writable(CacheKey(p)) { files := files[CacheKey(p) := (now, payload)]; }
    }
  }

  // ---- pass 1: which packages ----

  function Entries(n: Naming, deps: seq<Dependency>): (r: seq<(Dependency, Package)>)
    ensures forall e :: e in r <==> e.0 in deps && PackageOf(n, e.0) == Some(e.1)
  {
    if deps == [] then []
    else
      var k := |deps| - 1;
      assert forall d :: d in deps <==> d in deps[..k] || d == deps[k];
      var p := PackageOf(n, deps[k]);
      Entries(n, deps[..k]) + if p.Some? then [(deps[k], p.value)] else []
  }

  function Packages(entries: seq<(Dependency, Package)>): (r: seq<Package>)
    ensures |r| == |entries| && forall i :: 0 <= i < |r| ==> r[i] == entries[i].1
  {
    seq(|entries|, i requires 0 <= i < |entries| => entries[i].1)
  }

  /** Dependencies in a covered ecosystem that have no name or version to ask about. */
  function Nameless(n: Naming, deps: seq<Dependency>): nat {
    if deps == [] then 0
    else
      var d := deps[|deps| - 1];
      Nameless(n, deps[..|deps| - 1]) + if d.ecosystem in OSV_ECOSYSTEM && PackageOf(n, d).None? then 1 else 0
  }

  function InEcosystem(deps: seq<Dependency>, e: string): nat {
    if deps == [] then 0
    else InEcosystem(deps[..|deps| - 1], e) + if deps[|deps| - 1].ecosystem == e then 1 else 0
  }

  /** What pass 1 has tallied over the dependencies so far. */
  ghost predicate Tallied(deps: seq<Dependency>, inventory: map<string, nat>) {
    && (forall e :: InEcosystem(deps, e) > 0 && (e == "cocoapods" || e == "cmake") <==> e in inventory)
    && (forall e :: e in inventory ==> inventory[e] == InEcosystem(deps, e))
  }

  lemma TalliedNext(deps: seq<Dependency>, d: Dependency, inventory: map<string, nat>)
    requires Tallied(deps, inventory)
    ensures d.ecosystem !in INVENTORY_ONLY_ECOSYSTEMS ==> Tallied(deps + [d], inventory)
    ensures d.ecosystem in INVENTORY_ONLY_ECOSYSTEMS ==>
      Tallied(deps + [d], inventory[d.ecosystem := (if d.ecosystem in inventory then inventory[d.ecosystem] else 0) + 1])
  {
    assert (deps + [d])[..|deps|] == deps;
  }

  method Resolve(n: Naming, deps: seq<Dependency>, summary: LookupSummary)
    returns (entries: seq<(Dependency, Package)>, unique: seq<Package>)
    requires summary.inventoryOnly == map[]
    modifies summary`skippedNoVersion, summary`inventoryOnly
    ensures entries == Entries(n, deps) && unique == Firsts(Packages(entries))
    ensures summary.skippedNoVersion == old(summary.skippedNoVersion) + Nameless(n, deps)
    ensures Tallied(deps, summary.inventoryOnly)
  {
    hide Tallied, Packages, Firsts, ConcreteVersion, Entries, Nameless;
    entries, unique := [], [];
    NothingYet(n);
    for i := 0 to |deps|
      invariant entries == Entries(n, deps[..i]) && unique == Firsts(Packages(entries))
      invariant summary.skippedNoVersion == old(summary.skippedNoVersion) + Nameless(n, deps[..i])
      invariant Tallied(deps[..i], summary.inventoryOnly)
    {
      assert deps[..i + 1] == deps[..i] + [deps[i]];
      var d := deps[i];
      DependencyNext(n, deps[..i], d);
      TalliedNext(deps[..i], d, summary.inventoryOnly);
      if d.ecosystem !in OSV_ECOSYSTEM {
        if d.ecosystem in INVENTORY_ONLY_ECOSYSTEMS {
          var seen := if d.ecosystem in summary.inventoryOnly then summary.inventoryOnly[d.ecosystem] else 0;
          summary.inventoryOnly := summary.inventoryOnly[d.ecosystem := seen + 1];
        }
      } else {
        var name := n.osvName(d);
        var version := if name.None? then None else ConcreteVersion(n, d);
        if version.None? {
          summary.skippedNoVersion := summary.skippedNoVersion + 1;
        } else {
          var key := Package(d.ecosystem, name.value, version.value);
          PackagesNext(entries, (d, key));
          if key !in unique { unique := unique + [key]; }
          entries := entries + [(d, key)];
        }
      }
    }
    assert deps[..|deps|] == deps;
  }

  lemma NothingYet(n: Naming)
    ensures Firsts(Packages([])) == [] && Tallied([], map[]) && Entries(n, []) == [] && Nameless(n, []) == 0
  {}

  lemma DependencyNext(n: Naming, deps: seq<Dependency>, d: Dependency)
    ensures Entries(n, deps + [d]) == Entries(n, deps) + if PackageOf(n, d).Some? then [(d, PackageOf(n, d).value)] else []
    ensures Nameless(n, deps + [d]) ==
      Nameless(n, deps) + if d.ecosystem in OSV_ECOSYSTEM && PackageOf(n, d).None? then 1 else 0
  {
    assert (deps + [d])[..|deps|] == deps;
  }

  lemma PackagesNext(entries: seq<(Dependency, Package)>, e: (Dependency, Package))
    ensures Firsts(Packages(entries + [e])) ==
      if e.1 in Firsts(Packages(entries)) then Firsts(Packages(entries)) else Firsts(Packages(entries)) + [e.1]
  {
    var all := Packages(entries + [e]);
    assert all == Packages(entries) + [e.1];
    assert all[..|entries|] == Packages(entries);
  }

  // ---- pass 2: the cache ----

  function Cached(unique: seq<Package>, files: Files, now: int, ttl: nat): map<Package, seq<Entry>> {
    map p | p in unique && Fresh(files, p, now, ttl).Some? :: Fresh(files, p, now, ttl).value
  }

  /** The payloads are those of the packages whose file is there and was written at most `ttl` ago,
      or at any time if `ttl` is zero. */
  ghost predicate ServesUnexpired(payloads: map<Package, seq<Entry>>, unique: seq<Package>, files: Files, now: int, ttl: nat) {
    && (forall p :: p in payloads <==>
          p in unique && CacheKey(p) in files && (ttl == 0 || now - files[CacheKey(p)].0 <= ttl))
    && (forall p :: p in payloads ==> payloads[p] == files[CacheKey(p)].1)
  }

  lemma CachedIsUnexpired(unique: seq<Package>, files: Files, now: int, ttl: nat)
    ensures ServesUnexpired(Cached(unique, files, now, ttl), unique, files, now, ttl)
  {
    hide CacheKey;
  }

  lemma CachedNext(unique: seq<Package>, p: Package, files: Files, now: int, ttl: nat)
    requires p !in unique
    ensures p !in Cached(unique, files, now, ttl)
    ensures Cached(unique + [p], files, now, ttl) ==
      var hit := Fresh(files, p, now, ttl);
      if hit.Some? then Cached(unique, files, now, ttl)[p := hit.value] else Cached(unique, files, now, ttl)
  {}

  lemma NothingCached(files: Files, now: int, ttl: nat)
    ensures Cached([], files, now, ttl) == map[]
  {}

  method ServeCached(unique: seq<Package>, cache: CacheDir, now: int, ttl: nat, summary: LookupSummary)
    returns (payloads: map<Package, seq<Entry>>)
    requires Distinct(unique)
    modifies summary`cached
    ensures payloads == Cached(unique, cache.files, now, ttl)
    ensures ServesUnexpired(payloads, unique, cache.files, now, ttl)
    ensures summary.cached == old(summary.cached) + |payloads|
  {
    payloads := map[];
    CachedIsUnexpired(unique, cache.files, now, ttl);
    hide Fresh, ServesUnexpired, Cached;
    NothingCached(cache.files, now, ttl);
    for i := 0 to |unique|
      invariant payloads == Cached(unique[..i], cache.files, now, ttl)
      invariant summary.cached == old(summary.cached) + |payloads|
    {
      assert unique[..i + 1] == unique[..i] + [unique[i]];
      CachedNext(unique[..i], unique[i], cache.files, now, ttl);
      var hit := Fresh(cache.files, unique[i], now, ttl);
      if hit.Some? {
        payloads := payloads[unique[i] := hit.value];
        summary.cached := summary.cached + 1;
      }
    }
    assert unique[..|unique|] == unique;
  }

  // ---- pass 3: the misses ----

  /** Where pass 3 stands: the calls made, the answers held, the counters and the cache, after the
      packages in `done`; `failed` tells which call a package was skipped for. */
  datatype Run = Run(log: seq<Exchange>, payloads: map<Package, seq<Entry>>, queried: nat, skipped: nat,
                     files: Files, done: seq<Package>, failed: map<Package, nat>)

  /** What pass 3 starts from. */
  datatype Start = Start(cached: map<Package, seq<Entry>>, files: Files, now: int, writable: string -> bool)

  /** The answers held: what the cache served, and for every other package all that the server said. */
  ghost predicate Held(s: Start, r: Run) {
    && (forall p :: p in s.cached ==> p in r.payloads && r.payloads[p] == s.cached[p] && p !in r.done)
    && (forall p :: p in r.payloads && p !in s.cached ==> p in r.done && Complete(r.log, QueryOf(p), r.payloads[p]))
  }

  /** Every package settled so far is in exactly one counter. */
  ghost predicate Counted(s: Start, r: Run) {
    && |r.payloads| == |s.cached| + r.queried
    && r.queried + r.skipped == |r.done|
  }

  /** A package is left without a payload exactly when a call about it failed; two packages share
      such a call only if it is a batch. */
  ghost predicate Excused(r: Run) {
    && (forall p :: p in r.failed <==> p in r.done && p !in r.payloads)
    && (forall p :: p in r.failed ==> FailedAt(r.log, QueryOf(p), r.failed[p]))
    && (forall p, q :: p in r.failed && q in r.failed && p != q && r.failed[p] == r.failed[q] ==> r.log[r.failed[p]].req.Batch?)
  }

  ghost predicate FromRun(s: Start, r: Run, key: string)
    requires key in r.files
  {
    exists p :: p in r.done && p in r.payloads && CacheKey(p) == key && r.files[key] == (s.now, r.payloads[p])
  }

  ghost predicate AsBefore(s: Start, r: Run, key: string)
    requires key in r.files
  {
    key in s.files && r.files[key] == s.files[key]
  }

  /** Each cache file is as it was, or holds a payload of this run; and each payload of this run
      that could be written was. */
  ghost predicate Filed(s: Start, r: Run) {
    && (forall key :: key in s.files ==> key in r.files)
    && (forall key :: key in r.files ==> AsBefore(s, r, key) || FromRun(s, r, key))
    && (forall p :: p in r.done && p in r.payloads && s.writable(CacheKey(p)) ==>
          CacheKey(p) in r.files && r.files[CacheKey(p)].0 == s.now)
  }

  function Stored(s: Start, r: Run, p: Package, payload: seq<Entry>): Files {
    if s.writable(CacheKey(p)) then r.files[CacheKey(p) := (s.now, payload)] else r.files
  }

  /** The run after package `p` is answered with `payload`. */
  function Answer(s: Start, r: Run, log: seq<Exchange>, p: Package, payload: seq<Entry>): Run {
    Run(log, r.payloads[p := payload], r.queried + 1, r.skipped, Stored(s, r, p, payload), r.done + [p], r.failed)
  }

  /** The run after the packages in `more` go unanswered for the call at `at`. */
  function Skip(r: Run, log: seq<Exchange>, more: seq<Package>, at: nat): (t: Run)
    ensures t.(failed := r.failed) == r.(log := log, skipped := r.skipped + |more|, done := r.done + more)
  {
    Run(log, r.payloads, r.queried, r.skipped + |more|, r.files, r.done + more, r.failed + map p | p in more :: at)
  }

  lemma HeldGrows(s: Start, r: Run, t: Run)
    requires Held(s, r) && r.log <= t.log && t.payloads == r.payloads && r.done <= t.done
    requires forall p :: p in t.done && p !in r.done ==> p !in s.cached
    ensures Held(s, t)
  {
    hide Complete;
    forall p | p in t.payloads && p !in s.cached ensures p in t.done && Complete(t.log, QueryOf(p), t.payloads[p]) {
      CompleteGrows(r.log, t.log, QueryOf(p), r.payloads[p]);
      var i :| 0 <= i < |r.done| && r.done[i] == p;
      assert t.done[i] == p;
    }
  }

  lemma HeldAnswer(s: Start, r: Run, log: seq<Exchange>, p: Package, payload: seq<Entry>)
    requires Held(s, r) && r.log <= log && p !in r.done && p !in s.cached
    requires Complete(log, QueryOf(p), payload)
    ensures Held(s, Answer(s, r, log, p, payload)) && p !in r.payloads
  {
    hide Complete, Stored;
    var t := Answer(s, r, log, p, payload);
    forall q | q in t.payloads && q !in s.cached ensures q in t.done && Complete(t.log, QueryOf(q), t.payloads[q]) {
      if q != p { CompleteGrows(r.log, log, QueryOf(q), r.payloads[q]); }
    }
  }

  lemma CountedAnswer(s: Start, r: Run, log: seq<Exchange>, p: Package, payload: seq<Entry>)
    requires Counted(s, r) && r.log <= log && p !in r.payloads
    ensures Counted(s, Answer(s, r, log, p, payload))
  {
    hide Stored;
  }

  lemma ExcusedAnswer(s: Start, r: Run, log: seq<Exchange>, p: Package, payload: seq<Entry>)
    requires Excused(r) && r.log <= log && p !in r.done
    ensures Excused(Answer(s, r, log, p, payload))
  {
    hide Stored, FailedAt;
    var t := Answer(s, r, log, p, payload);
    forall q | q in r.failed ensures FailedAt(log, QueryOf(q), r.failed[q]) && r.failed[q] < |r.log| && log[r.failed[q]] == r.log[r.failed[q]] {
      EarlierFailure(r, log, q);
    }
  }

  lemma EarlierFailure(r: Run, log: seq<Exchange>, q: Package)
    requires Excused(r) && r.log <= log && q in r.failed
    ensures FailedAt(log, QueryOf(q), r.failed[q]) && r.failed[q] < |r.log| && log[r.failed[q]] == r.log[r.failed[q]]
  {
    FailedAtGrows(r.log, log, QueryOf(q), r.failed[q]);
  }

  lemma ExcusedSkip(r: Run, log: seq<Exchange>, more: seq<Package>, at: nat)
    requires Excused(r) && r.log <= log
    requires forall p :: p in more ==> p !in r.done && p !in r.payloads && FailedAt(log, QueryOf(p), at)
    requires more != [] ==> |r.log| <= at < |log| && (log[at].req.Batch? || |more| == 1)
    ensures Excused(Skip(r, log, more, at))
  {
    hide FailedAt, QueryOf, Skip;
    var t := Skip(r, log, more, at);
    SkipAdds(r, log, more, at);
    forall q | q in t.failed ensures FailedAt(log, QueryOf(q), t.failed[q]) {
      if q in r.failed { EarlierFailure(r, log, q); }
    }
    forall p, q | p in t.failed && q in t.failed && p != q && t.failed[p] == t.failed[q]
      ensures t.failed[p] < |log| && log[t.failed[p]].req.Batch?
    {
      FreshFailure(r, log, more, at, t.failed, p, q);
    }
  }

  lemma SkipAdds(r: Run, log: seq<Exchange>, more: seq<Package>, at: nat)
    requires Excused(r) && forall p :: p in more ==> p !in r.done
    ensures
      var t := Skip(r, log, more, at);
      && t.log == log && t.payloads == r.payloads
      && (forall q :: q in t.done <==> q in r.done || q in more)
      && (forall q :: q in t.failed <==> q in r.failed || q in more)
      && (forall q :: q in more ==> t.failed[q] == at)
      && (forall q :: q in r.failed ==> t.failed[q] == r.failed[q])
  {
    hide FailedAt, QueryOf;
  }

  lemma FreshFailure(r: Run, log: seq<Exchange>, more: seq<Package>, at: nat, failed: map<Package, nat>, p: Package, q: Package)
    requires more != [] ==> |r.log| <= at < |log| && (log[at].req.Batch? || |more| == 1)
    requires Excused(r) && r.log <= log
    requires forall x :: x in failed <==> x in r.failed || x in more
    requires forall x :: x in more ==> failed[x] == at
    requires forall x :: x in r.failed ==> failed[x] == r.failed[x]
    requires p in failed && q in failed && p != q && failed[p] == failed[q]
    ensures failed[p] < |log| && log[failed[p]].req.Batch?
  {
    hide Excused;
    if p in r.failed { EarlierFailure(r, log, p); }
    if q in r.failed { EarlierFailure(r, log, q); }
    if p in r.failed && q in r.failed { SharedFailure(r, p, q); }
  }

  lemma SharedFailure(r: Run, p: Package, q: Package)
    requires Excused(r) && p in r.failed && q in r.failed && p != q && r.failed[p] == r.failed[q]
    ensures r.failed[p] < |r.log| && r.log[r.failed[p]].req.Batch?
  {
    assert FailedAt(r.log, QueryOf(p), r.failed[p]);
  }

  lemma FiledAnswer(s: Start, r: Run, log: seq<Exchange>, p: Package, payload: seq<Entry>)
    requires Filed(s, r) && p !in r.payloads
    ensures Filed(s, Answer(s, r, log, p, payload))
  {
    hide CacheKey;
    var t := Answer(s, r, log, p, payload);
    assert p in t.done;
    assert forall q :: q in r.done ==> q in t.done;
    forall key | key in t.files ensures AsBefore(s, t, key) || FromRun(s, t, key) {
      if key == CacheKey(p) && s.writable(key) {
        assert t.files[key] == (s.now, t.payloads[p]);
      } else if FromRun(s, r, key) {
        var q :| q in r.done && q in r.payloads && CacheKey(q) == key && r.files[key] == (s.now, r.payloads[q]);
        assert t.payloads[q] == r.payloads[q];
      }
    }
  }

  lemma FiledSkip(s: Start, r: Run, log: seq<Exchange>, more: seq<Package>, at: nat)
    requires Filed(s, r) && forall p :: p in more ==> p !in r.payloads
    ensures Filed(s, Skip(r, log, more, at))
  {
    hide CacheKey;
    var t := Skip(r, log, more, at);
    assert forall q :: q in t.done <==> q in r.done || q in more;
    forall key | key in t.files ensures AsBefore(s, t, key) || FromRun(s, t, key) {
      if FromRun(s, r, key) {
        var q :| q in r.done && q in r.payloads && CacheKey(q) == key && r.files[key] == (s.now, r.payloads[q]);
        assert q in t.done;
      }
    }
  }

  ghost predicate Sound(s: Start, r: Run) {
    Held(s, r) && Counted(s, r) && Filed(s, r) && Excused(r)
  }

  lemma AnswerIsSound(s: Start, r: Run, log: seq<Exchange>, p: Package, payload: seq<Entry>)
    requires Sound(s, r) && r.log <= log && p !in r.done && p !in s.cached
    requires Complete(log, QueryOf(p), payload)
    ensures Sound(s, Answer(s, r, log, p, payload))
  {
    hide Held, Counted, Filed, Excused, Answer;
    ExcusedAnswer(s, r, log, p, payload);
    HeldAnswer(s, r, log, p, payload);
    CountedAnswer(s, r, log, p, payload);
    FiledAnswer(s, r, log, p, payload);
  }

  lemma SkipIsSound(s: Start, r: Run, log: seq<Exchange>, more: seq<Package>, at: nat)
    requires Sound(s, r) && r.log <= log
    requires forall p :: p in more ==> p !in r.done && p !in s.cached && FailedAt(log, QueryOf(p), at)
    requires more != [] ==> |r.log| <= at < |log| && (log[at].req.Batch? || |more| == 1)
    ensures Sound(s, Skip(r, log, more, at))
  {
    hide Complete, FailedAt, Excused, Held, Filed, Skip, QueryOf;
    NotHeldYet(s, r, more);
    ExcusedSkip(r, log, more, at);
    HeldSkip(s, r, log, more, at);
    FiledSkip(s, r, log, more, at);
  }

  lemma NotHeldYet(s: Start, r: Run, more: seq<Package>)
    requires Held(s, r) && forall p :: p in more ==> p !in r.done && p !in s.cached
    ensures forall p :: p in more ==> p !in r.payloads
  {
    hide Complete, QueryOf;
  }

  lemma HeldSkip(s: Start, r: Run, log: seq<Exchange>, more: seq<Package>, at: nat)
    requires Held(s, r) && r.log <= log && forall p :: p in more ==> p !in s.cached
    ensures Held(s, Skip(r, log, more, at))
  {
    hide Complete, Held, Skip, QueryOf;
    assert forall q :: q in r.done + more <==> q in r.done || q in more;
    HeldGrows(s, r, Skip(r, log, more, at));
  }

  /** The real objects are where the run says. */
  ghost predicate Stands(r: Run, wire: Wire, summary: LookupSummary, cache: CacheDir, payloads: map<Package, seq<Entry>>)
    reads wire, summary, cache
  {
    && wire.Faithful() && r.log == wire.log && r.payloads == payloads
    && r.queried == summary.queried && r.skipped == summary.skippedOffline && r.files == cache.files
    && summary.networkErrors == Errors(wire.log)
  }

  /** In the middle of pass 3. */
  ghost predicate Underway(s: Start, r: Run, wire: Wire, summary: LookupSummary, cache: CacheDir,
                           payloads: map<Package, seq<Entry>>, memo: map<string, Entry>)
    reads wire, summary, cache
  {
    && Stands(r, wire, summary, cache, payloads) && Sound(s, r)
    && Remembered(wire.log, memo) && Economical(wire.log, memo)
  }

  /** One package's payload from its part of a batch answer: the paged query when the listing goes
      on, the detail records otherwise. */
  method AnswerItem(wire: Wire, summary: LookupSummary, q: Query, item: Item, details: map<string, Entry>,
                    ghost k: nat, ghost i: nat, ghost left: PagesLeft)
    returns (payload: Option<seq<Entry>>, memo: map<string, Entry>)
    requires wire.Faithful() && FinitelyPaged(wire.server, left)
    requires Remembered(wire.log, details) && Economical(wire.log, details)
    requires ItemAt(wire.log, k, i, q) && wire.log[k].resp.items[i] == item
    modifies wire, summary`networkErrors
    ensures Called(wire, summary) && Remembered(wire.log, memo) && Economical(wire.log, memo)
    ensures forall k :: |old(wire.log)| <= k < |wire.log| ==> !wire.log[k].req.Batch?
    ensures payload.Some? ==> Complete(wire.log, q, payload.value)
    ensures payload.None? ==> LastFailed(old(wire.log), wire.log) && FailedAt(wire.log, q, |wire.log| - 1)
  {
    hide FinitelyPaged, Errors, Economical;
    if item.Listing? && item.more {
      payload := FetchPaged(wire, summary, q, left);
      memo := details;
      RememberedGrows(old(wire.log), wire.log, memo);
      EconomicalGrows(old(wire.log), wire.log, memo);
    } else {
      payload, memo := AssembleDetails(wire, summary, if item.Listing? then item.refs else [], details);
      if payload.Some? && item.NotADict? { assert NonEmpty([]) == []; }
    }
    assert ItemAt(wire.log, k, i, q);
    if payload.Some? {
      assert CompleteFor(wire.log, k, i, q, payload.value);
    } else if item.Listing? && item.more {
      assert GoesOnAt(wire.log, k, i, q);
    } else {
      assert NamedAt(wire.log, k, i, q, wire.log[|wire.log| - 1].req.id);
    }
  }

  function Queries(packages: seq<Package>): (r: seq<Query>)
    ensures |r| == |packages| && forall i :: 0 <= i < |r| ==> r[i] == QueryOf(packages[i])
  {
    seq(|packages|, i requires 0 <= i < |packages| => QueryOf(packages[i]))
  }

  /** One package of a batch: answered, cached and counted, or skipped. */
  method Settle(wire: Wire, summary: LookupSummary, cache: CacheDir, key: Package, item: Item, now: int,
                held: map<Package, seq<Entry>>, details: map<string, Entry>, ghost k: nat, ghost i: nat, ghost left: PagesLeft,
                ghost s: Start, ghost r: Run)
    returns (payloads: map<Package, seq<Entry>>, memo: map<string, Entry>, ghost t: Run)
    requires Underway(s, r, wire, summary, cache, held, details)
    requires FinitelyPaged(wire.server, left) && s.now == now && s.writable == cache.writable
    requires key !in r.done && key !in s.cached
    requires ItemAt(wire.log, k, i, QueryOf(key)) && wire.log[k].resp.items[i] == item
    modifies wire, summary`networkErrors, summary`queried, summary`skippedOffline, cache
    ensures Underway(s, t, wire, summary, cache, payloads, memo)
    ensures old(wire.log) <= wire.log && t.done == r.done + [key] && Batches(wire.log) == Batches(old(wire.log))
  {
    hide FinitelyPaged, Errors, Sound, Complete, Remembered, Economical, Batches, FailedAt, CacheKey, Skip, QueryOf;
    var payload;
    payloads := held;
    payload, memo := AnswerItem(wire, summary, QueryOf(key), item, details, k, i, left);
    NoNewBatches(old(wire.log), wire.log);
    if payload.None? {
      SkipIsSound(s, r, wire.log, [key], |wire.log| - 1);
      t := Skip(r, wire.log, [key], |wire.log| - 1);
      summary.skippedOffline := summary.skippedOffline + 1;
    } else {
      AnswerIsSound(s, r, wire.log, key, payload.value);
      t := Answer(s, r, wire.log, key, payload.value);
      payloads := payloads[key := payload.value];
      cache.Write(key, payload.value, now);
      summary.queried := summary.queried + 1;
    }
  }

  /** Every package of an answered batch. */
  method SettleAll(wire: Wire, summary: LookupSummary, cache: CacheDir, chunk: seq<Package>, items: seq<Item>, now: int,
                   held: map<Package, seq<Entry>>, details: map<string, Entry>, ghost k: nat, ghost left: PagesLeft,
                   ghost s: Start, ghost r: Run)
    returns (payloads: map<Package, seq<Entry>>, memo: map<string, Entry>, ghost t: Run)
    requires Underway(s, r, wire, summary, cache, held, details)
    requires FinitelyPaged(wire.server, left) && s.now == now && s.writable == cache.writable
    requires New(chunk, r.done, s.cached) && |items| == |chunk|
    requires k < |wire.log| && wire.log[k].resp == Results(items)
    requires forall i :: 0 <= i < |chunk| ==> ItemAt(wire.log, k, i, QueryOf(chunk[i]))
    modifies wire, summary`networkErrors, summary`queried, summary`skippedOffline, cache
    ensures Underway(s, t, wire, summary, cache, payloads, memo)
    ensures t.done == r.done + chunk && Batches(wire.log) == Batches(old(wire.log))
    ensures old(wire.log) <= wire.log
  {
    hide FinitelyPaged, Underway, Batches;
    payloads, memo, t := held, details, r;
    for i := 0 to |chunk|
      invariant Underway(s, t, wire, summary, cache, payloads, memo)
      invariant old(wire.log) <= wire.log && t.done == r.done + chunk[..i] && Batches(wire.log) == Batches(old(wire.log))
    {
      assert chunk[..i + 1] == chunk[..i] + [chunk[i]];
      assert ItemAt(old(wire.log), k, i, QueryOf(chunk[i]));
      payloads, memo, t := Settle(wire, summary, cache, chunk[i], items[i], now, payloads, memo, k, i, left, s, t);
    }
    assert chunk[..|chunk|] == chunk;
  }

  /** One batch was sent, and it asked this. */
  ghost predicate OnlyBatch(before: seq<Exchange>, log: seq<Exchange>, queries: seq<Query>) {
    && before <= log
    && forall k :: |before| <= k < |log| && log[k].req.Batch? ==> log[k].req.queries == queries
  }

  lemma {:induction false} NoOtherBatch(asked: seq<Exchange>, log: seq<Exchange>, k: nat, queries: seq<Query>)
    requires asked <= log && |asked| == k + 1 && asked[k].req == Batch(queries) && Batches(log) == Batches(asked)
    ensures OnlyBatch(asked[..k], log, queries)
  {
    assert log[..|asked|] == asked;
    forall j | k <= j < |log| && log[j].req.Batch? ensures log[j].req.queries == queries {
      if j > k { BatchesGrow(log, |asked|, j); }
    }
  }

  lemma {:induction false} BatchesGrow(log: seq<Exchange>, a: nat, j: nat)
    requires a <= j < |log| && log[j].req.Batch?
    ensures Batches(log) > Batches(log[..a])
  {
    var n := |log| - 1;
    if j < n {
      BatchesGrow(log[..n], a, j);
      assert log[..n][..a] == log[..a];
    } else {
      BatchesKeep(log[..n], a);
      assert log[..n][..a] == log[..a];
    }
  }

  lemma {:induction false} BatchesKeep(log: seq<Exchange>, a: nat)
    requires a <= |log|
    ensures Batches(log) >= Batches(log[..a])
  {
    if a == |log| {
      assert log[..a] == log;
    } else {
      BatchesKeep(log[..|log| - 1], a);
      assert log[..|log| - 1][..a] == log[..a];
    }
  }

  /** One batch: every package of the chunk ends up answered or skipped. */
  method AskChunk(wire: Wire, summary: LookupSummary, cache: CacheDir, chunk: seq<Package>, now: int,
                  held: map<Package, seq<Entry>>, details: map<string, Entry>, ghost left: PagesLeft, ghost s: Start, ghost r: Run)
    returns (payloads: map<Package, seq<Entry>>, memo: map<string, Entry>, ghost t: Run)
    requires Underway(s, r, wire, summary, cache, held, details)
    requires FinitelyPaged(wire.server, left) && s.now == now && s.writable == cache.writable
    requires New(chunk, r.done, s.cached)
    modifies wire, summary`networkErrors, summary`queried, summary`skippedOffline, cache
    ensures Underway(s, t, wire, summary, cache, payloads, memo)
    ensures t.done == r.done + chunk && Batches(wire.log) == Batches(old(wire.log)) + 1
    ensures OnlyBatch(old(wire.log), wire.log, Queries(chunk))
  {
    hide FinitelyPaged, Errors, Sound, Complete, Remembered, Economical, FailedAt, Skip, QueryOf, OnlyBatch, ItemAt;
    payloads, memo, t := held, details, r;
    var items := FetchBatch(wire, summary, Queries(chunk));
    ghost var k := |old(wire.log)|;
    RememberedGrows(old(wire.log), wire.log, memo);
    EconomicalGrows(old(wire.log), wire.log, memo);
    assert wire.log[..k] == old(wire.log) && Batches(wire.log) == Batches(old(wire.log)) + 1;
    hide Batches;
    NoOtherBatch(wire.log, wire.log, k, Queries(chunk));
    if items.None? {
      BatchFailed(wire.log, k, chunk);
      SkipIsSound(s, t, wire.log, chunk, k);
      t := Skip(t, wire.log, chunk, k);
      summary.skippedOffline := summary.skippedOffline + |chunk|;
      return;
    }
    NewCallsAreSound(s, t, wire.log, k);
    t := Skip(t, wire.log, [], k);
    BatchAnswered(wire.log, k, chunk);
    hide New;
    ghost var asked := wire.log;
    payloads, memo, t := SettleAll(wire, summary, cache, chunk, items.value, now, payloads, memo, k, left, s, t);
    NoOtherBatch(asked, wire.log, k, Queries(chunk));
    assert r.done + [] == r.done;
  }

  lemma BatchAnswered(log: seq<Exchange>, k: nat, chunk: seq<Package>)
    requires k < |log| && log[k].req == Batch(Queries(chunk)) && Answered(log[k])
    ensures forall i :: 0 <= i < |chunk| ==> ItemAt(log, k, i, QueryOf(chunk[i]))
  {
    hide QueryOf;
  }

  lemma BatchFailed(log: seq<Exchange>, k: nat, chunk: seq<Package>)
    requires k < |log| && log[k].req == Batch(Queries(chunk)) && !Answered(log[k])
    ensures forall p :: p in chunk ==> FailedAt(log, QueryOf(p), k)
  {
    forall p | p in chunk ensures QueryOf(p) in Queries(chunk) {
      var i :| 0 <= i < |chunk| && chunk[i] == p;
      assert Queries(chunk)[i] == QueryOf(p);
    }
  }

  lemma NewCallsAreSound(s: Start, r: Run, log: seq<Exchange>, at: nat)
    requires Sound(s, r) && r.log <= log
    ensures Sound(s, Skip(r, log, [], at))
  {
    SkipIsSound(s, r, log, [], at);
  }

  /** The packages the cache could not serve, in order. */
  function Misses(unique: seq<Package>, cached: map<Package, seq<Entry>>): (r: seq<Package>)
    ensures forall p :: p in r <==> p in unique && p !in cached
    ensures Distinct(unique) ==> Distinct(r)
  {
    if unique == [] then []
    else
      var k := |unique| - 1;
      assert forall p :: p in unique <==> p in unique[..k] || p == unique[k];
      Misses(unique[..k], cached) + if unique[k] in cached then [] else [unique[k]]
  }

  /** Packages that are each to be settled once. */
  ghost predicate New(chunk: seq<Package>, done: seq<Package>, cached: map<Package, seq<Entry>>) {
    Distinct(chunk) && forall p :: p in chunk ==> p !in done && p !in cached
  }

  lemma ChunkIsNew(misses: seq<Package>, start: nat, end: nat, cached: map<Package, seq<Entry>>)
    requires New(misses, [], cached) && start <= end <= |misses|
    ensures New(misses[start..end], misses[..start], cached)
    ensures misses[..start] + misses[start..end] == misses[..end]
  {}

  /** How many chunks of at most `size` it takes. */
  function Chunks(n: nat, size: nat): nat
    requires size > 0
  {
    if n == 0 then 0 else 1 + Chunks(if n <= size then 0 else n - size, size)
  }

  /** All misses, one batch at a time. */
  method QueryMisses(wire: Wire, summary: LookupSummary, cache: CacheDir, misses: seq<Package>, now: int, batchSize: nat,
                     cached: map<Package, seq<Entry>>, ghost left: PagesLeft, ghost s: Start)
    returns (payloads: map<Package, seq<Entry>>, ghost r: Run)
    requires wire.Faithful() && wire.log == [] && FinitelyPaged(wire.server, left) && batchSize > 0
    requires summary.queried == summary.skippedOffline == summary.networkErrors == 0
    requires s == Start(cached, cache.files, now, cache.writable)
    requires New(misses, [], cached)
    modifies wire, summary`networkErrors, summary`queried, summary`skippedOffline, cache
    ensures Stands(r, wire, summary, cache, payloads) && Sound(s, r) && r.done == misses
    ensures Batches(wire.log) == Chunks(|misses|, batchSize) && NoRecordTwice(wire.log)
    ensures BatchesOfAtMost(wire.log, batchSize)
  {
    hide FinitelyPaged, New, Batches, Chunks, OnSchedule, NoRecordTwice, Underway, Stands, Sound, CacheKey;
    payloads := cached;
    r := Run([], cached, 0, 0, cache.files, [], map[]);
    var memo: map<string, Entry> := map[];
    var start := 0;
    NoCallsYet(s, |misses|, batchSize);
    Begins(s, r, wire, summary, cache);
    while start < |misses|
      invariant start <= |misses| && r.done == misses[..start]
      invariant Underway(s, r, wire, summary, cache, payloads, memo)
      invariant OnSchedule(Batches(wire.log), start, |misses|, batchSize)
      invariant BatchesOfAtMost(wire.log, batchSize)
      decreases |misses| - start
    {
      var end := if start + batchSize < |misses| then start + batchSize else |misses|;
      ChunkIsNew(misses, start, end, cached);
      OneMoreChunk(Batches(wire.log), start, end, |misses|, batchSize);
      ghost var before := wire.log;
      payloads, memo, r := AskChunk(wire, summary, cache, misses[start..end], now, payloads, memo, left, s, r);
      OneMoreBatch(before, wire.log, Queries(misses[start..end]), batchSize);
      start := end;
    }
    assert misses[..start] == misses;
    Finished(s, r, wire, summary, cache, payloads, memo);
    NoMoreChunks(Batches(wire.log), |misses|, batchSize);
  }

  /** No batch asks about no package, or about more than `size`. */
  ghost predicate BatchesOfAtMost(log: seq<Exchange>, size: nat) {
    forall k :: 0 <= k < |log| && log[k].req.Batch? ==> 0 < |log[k].req.queries| <= size
  }

  lemma OneMoreBatch(before: seq<Exchange>, log: seq<Exchange>, queries: seq<Query>, size: nat)
    requires BatchesOfAtMost(before, size) && OnlyBatch(before, log, queries) && 0 < |queries| <= size
    ensures BatchesOfAtMost(log, size)
  {}

  lemma Begins(s: Start, r: Run, wire: Wire, summary: LookupSummary, cache: CacheDir)
    requires r == Run([], s.cached, 0, 0, s.files, [], map[]) && s.files == cache.files
    requires wire.Faithful() && wire.log == []
    requires summary.queried == summary.skippedOffline == summary.networkErrors == 0
    ensures Underway(s, r, wire, summary, cache, s.cached, map[])
  {
    hide Sound;
    NoCallsYet(s, 0, 1);
  }

  lemma Finished(s: Start, r: Run, wire: Wire, summary: LookupSummary, cache: CacheDir,
                 payloads: map<Package, seq<Entry>>, memo: map<string, Entry>)
    requires Underway(s, r, wire, summary, cache, payloads, memo)
    ensures Stands(r, wire, summary, cache, payloads) && Sound(s, r) && NoRecordTwice(wire.log)
  {
    hide Sound, Remembered;
    AtMostOnce(wire.log, memo);
  }

  lemma NoCallsYet(s: Start, n: nat, size: nat)
    requires size > 0
    ensures Errors([]) == 0 && Batches([]) == 0 && Remembered([], map[]) && Economical([], map[])
    ensures Sound(s, Run([], s.cached, 0, 0, s.files, [], map[])) && OnSchedule(0, 0, n, size)
  {}

  /** The batches made and those it takes for the rest are what it takes for all `n`. */
  ghost predicate OnSchedule(batches: nat, start: nat, n: nat, size: nat)
    requires size > 0 && start <= n
  {
    batches + Chunks(n - start, size) == Chunks(n, size)
  }

  /** Which is the least number of chunks that holds them. */
  lemma {:induction false} ChunksAreEnough(n: nat, size: nat)
    requires size > 0
    ensures n <= Chunks(n, size) * size && (n > 0 ==> (Chunks(n, size) - 1) * size < n)
  {
    if n > size {
      ChunksAreEnough(n - size, size);
      assert Chunks(n, size) == 1 + Chunks(n - size, size);
    } else if n > 0 {
      assert Chunks(n, size) == 1 + Chunks(0, size) && Chunks(0, size) == 0;
    }
  }

  lemma OneMoreChunk(batches: nat, start: nat, end: nat, n: nat, size: nat)
    requires size > 0 && start < n && OnSchedule(batches, start, n, size)
    requires end == if start + size < n then start + size else n
    ensures OnSchedule(batches + 1, end, n, size)
  {}

  lemma NoMoreChunks(batches: nat, n: nat, size: nat)
    requires size > 0 && OnSchedule(batches, n, n, size)
    ensures batches == Chunks(n, size)
  {}

  // ---- pass 4: fan-out ----

  datatype Vulnerability = Vulnerability(
    id: string, ecosystem: string, packageName: string, packageVersion: string, severity: string,
    entry: Entry, direct: bool, resolutionPath: string, sourceAnalyzer: string)

  type Fingerprint = (string, string, string, string)

  function FingerprintOf(v: Vulnerability): Fingerprint {
    (v.ecosystem, v.packageName, v.packageVersion, v.id)
  }

  const VULNERABILITIES: MergeRule<Vulnerability, Fingerprint> := MergeRule("vulnerabilities", FingerprintOf, None)

  function VulnerabilityOf(severity: Entry -> string, e: Entry, d: Dependency, p: Package): Vulnerability {
    Vulnerability(e.id, d.ecosystem, d.name, p.version, severity(e), e, d.direct,
                  if d.via.Some? then d.via.value else "", "cve")
  }

  /** The records of one dependency, entries without an id left out. */
  function FoundIn(severity: Entry -> string, payload: seq<Entry>, d: Dependency, p: Package): (r: seq<Vulnerability>)
    ensures forall v :: v in r <==> exists e :: e in payload && e.id != "" && v == VulnerabilityOf(severity, e, d, p)
  {
    if payload == [] then []
    else
      var k := |payload| - 1;
      var e := payload[k];
      assert forall x :: x in payload <==> x in payload[..k] || x == e;
      FoundIn(severity, payload[..k], d, p) + if e.id == "" then [] else [VulnerabilityOf(severity, e, d, p)]
  }

  function PayloadOf(payloads: map<Package, seq<Entry>>, p: Package): seq<Entry> {
    if p in payloads then payloads[p] else []
  }

  /** Every (dependency, advisory) pair, repeats included. */
  function Found(severity: Entry -> string, entries: seq<(Dependency, Package)>, payloads: map<Package, seq<Entry>>)
    : (r: seq<Vulnerability>)
    ensures forall v :: v in r <==>
      exists x, e :: x in entries && e in PayloadOf(payloads, x.1) && e.id != "" && v == VulnerabilityOf(severity, e, x.0, x.1)
  {
    if entries == [] then []
    else
      var k := |entries| - 1;
      var (d, p) := entries[k];
      assert forall x :: x in entries <==> x in entries[..k] || x == entries[k];
      Found(severity, entries[..k], payloads) + FoundIn(severity, PayloadOf(payloads, p), d, p)
  }

  lemma FoundNext(severity: Entry -> string, payload: seq<Entry>, d: Dependency, p: Package, j: nat)
    requires j < |payload|
    ensures FoundIn(severity, payload[..j + 1], d, p) == FoundIn(severity, payload[..j], d, p) +
      if payload[j].id == "" then [] else [VulnerabilityOf(severity, payload[j], d, p)]
  {
    assert payload[..j + 1][..j] == payload[..j];
  }

  lemma MergeLast(items: seq<Vulnerability>, found: seq<Vulnerability>, v: Vulnerability)
    ensures MergeAll(VULNERABILITIES, Merged([], {}), items + (found + [v])) ==
            MergeOne(VULNERABILITIES, MergeAll(VULNERABILITIES, Merged([], {}), items + found), v)
  {
    var all := items + (found + [v]);
    assert all[..|all| - 1] == items + found;
  }

  /** Adds one dependency's records, each advisory of a package version once. */
  method FanOutOne(severity: Entry -> string, d: Dependency, p: Package, payload: seq<Entry>,
                   vulns: seq<Vulnerability>, seen: set<Fingerprint>, ghost before: seq<Vulnerability>)
    returns (vulns': seq<Vulnerability>, seen': set<Fingerprint>)
    requires Merged(vulns, seen) == MergeAll(VULNERABILITIES, Merged([], {}), before)
    ensures Merged(vulns', seen') == MergeAll(VULNERABILITIES, Merged([], {}), before + FoundIn(severity, payload, d, p))
  {
    hide MergeAll;
    vulns', seen' := vulns, seen;
    assert before + FoundIn(severity, payload[..0], d, p) == before;
    hide FoundIn;
    for j := 0 to |payload|
      invariant Merged(vulns', seen') ==
                MergeAll(VULNERABILITIES, Merged([], {}), before + FoundIn(severity, payload[..j], d, p))
    {
      var e := payload[j];
      FoundNext(severity, payload, d, p, j);
      ghost var found := FoundIn(severity, payload[..j], d, p);
      assert before + (found + []) == before + found;
      if e.id != "" {
        var v := VulnerabilityOf(severity, e, d, p);
        MergeLast(before, found, v);
        if FingerprintOf(v) !in seen' {
          seen' := seen' + {FingerprintOf(v)};
          vulns' := vulns' + [v];
        }
      }
    }
    assert payload[..|payload|] == payload;
  }

  method FanOut(severity: Entry -> string, entries: seq<(Dependency, Package)>, payloads: map<Package, seq<Entry>>)
    returns (vulns: seq<Vulnerability>)
    ensures vulns == MergeAll(VULNERABILITIES, Merged([], {}), Found(severity, entries, payloads)).target
  {
    vulns := [];
    var seen: set<Fingerprint> := {};
    for i := 0 to |entries|
      invariant Merged(vulns, seen) ==
                MergeAll(VULNERABILITIES, Merged([], {}), Found(severity, entries[..i], payloads))
    {
      assert entries[..i + 1][..i] == entries[..i];
      var (d, p) := entries[i];
      ghost var before := Found(severity, entries[..i], payloads);
      vulns, seen := FanOutOne(severity, d, p, PayloadOf(payloads, p), vulns, seen, before);
    }
    assert entries[..|entries|] == entries;
  }

  function SeverityOrder(severity: string): nat {
    if severity == "high" then 0 else if severity == "medium" then 1 else if severity == "low" then 2 else 3
  }

  /** Most severe first, then by ecosystem, package and id. */
  predicate VulnLE(a: Vulnerability, b: Vulnerability) {
    if SeverityOrder(a.severity) != SeverityOrder(b.severity) then SeverityOrder(a.severity) < SeverityOrder(b.severity)
    else ListLE([a.ecosystem, a.packageName, a.id], [b.ecosystem, b.packageName, b.id])
  }

  lemma VulnOrder()
    ensures TotalPreorder(VulnLE)
  {
    ListOrder();
  }

  // ---- what is looked up and reported, in plain terms ----

  /** `d` is looked up as `p`: in an ecosystem the server knows, under the name it has there, and at
      its locked version, a Go one without its leading v's, or else at the version its range reads as. */
  ghost predicate LooksUp(n: Naming, d: Dependency, p: Package) {
    && d.ecosystem in {"pypi", "npm", "go", "cargo", "composer", "maven", "nuget", "gem", "hex", "pub", "conan",
                       "vcpkg", "swiftpm", "carthage"}
    && p.ecosystem == d.ecosystem && n.osvName(d) == Some(p.name)
    && if d.resolved && d.version.Some? && d.version.value != ""
       then if d.ecosystem == "go" then WithoutV(d.version.value, p.version) else p.version == d.version.value
       else n.concrete(d.version) == Some(p.version)
  }

  ghost predicate WithoutV(version: string, bare: string) {
    exists k: nat :: CutsV(version, bare, k)
  }

  ghost predicate CutsV(version: string, bare: string, k: nat) {
    k <= |version| && bare == version[k..] && (forall i :: 0 <= i < k ==> version[i] == 'v') && (bare == "" || bare[0] != 'v')
  }

  lemma {:induction false} LStripVCuts(version: string, bare: string)
    ensures WithoutV(version, bare) <==> bare == LStripV(version)
  {
    if version != [] && version[0] == 'v' {
      LStripVCuts(version[1..], bare);
      if k: nat :| CutsV(version, bare, k) {
        if k > 0 {
          assert version[1..][k - 1..] == version[k..];
          assert CutsV(version[1..], bare, k - 1);
        }
      }
      if k: nat :| CutsV(version[1..], bare, k) {
        assert version[k + 1..] == version[1..][k..];
        assert forall i :: 0 < i < k + 1 ==> version[i] == version[1..][i - 1];
        assert CutsV(version, bare, k + 1);
      }
    } else {
      assert version[0..] == version;
      if bare == version { assert CutsV(version, bare, 0); }
    }
  }

  lemma LooksUpIff(n: Naming, d: Dependency, p: Package)
    ensures LooksUp(n, d, p) <==> PackageOf(n, d) == Some(p)
  {
    if d.version.Some? { LStripVCuts(d.version.value, p.version); }
  }

  /** The server is asked in its own names for the ecosystems. */
  lemma AskedInServersNames(name: string, version: string)
    ensures QueryOf(Package("pypi", name, version)) == Query("PyPI", name, version)
    ensures QueryOf(Package("npm", name, version)) == Query("npm", name, version)
    ensures QueryOf(Package("go", name, version)) == Query("Go", name, version)
    ensures QueryOf(Package("cargo", name, version)) == Query("crates.io", name, version)
    ensures QueryOf(Package("composer", name, version)) == Query("Packagist", name, version)
    ensures QueryOf(Package("maven", name, version)) == Query("Maven", name, version)
    ensures QueryOf(Package("nuget", name, version)) == Query("NuGet", name, version)
    ensures QueryOf(Package("gem", name, version)) == Query("RubyGems", name, version)
    ensures QueryOf(Package("hex", name, version)) == Query("Hex", name, version)
    ensures QueryOf(Package("pub", name, version)) == Query("Pub", name, version)
    ensures QueryOf(Package("conan", name, version)) == Query("ConanCenter", name, version)
    ensures QueryOf(Package("vcpkg", name, version)) == Query("vcpkg", name, version)
    ensures QueryOf(Package("swiftpm", name, version)) == Query("SwiftURL", name, version)
    ensures QueryOf(Package("carthage", name, version)) == Query("SwiftURL", name, version)
  {}

  ghost predicate Unexpired(files: Files, p: Package, now: int, ttl: nat) {
    CacheKey(p) in files && (ttl == 0 || now - files[CacheKey(p)].0 <= ttl)
  }

  lemma UniqueArePackages(n: Naming, deps: seq<Dependency>, p: Package)
    ensures p in Firsts(Packages(Entries(n, deps))) <==> exists d :: d in deps && LooksUp(n, d, p)
  {
    hide LooksUp, PackageOf;
    var entries := Entries(n, deps);
    if p in Packages(entries) {
      var i :| 0 <= i < |entries| && Packages(entries)[i] == p;
      assert entries[i] in entries;
      LooksUpIff(n, entries[i].0, p);
    }
    if d :| d in deps && LooksUp(n, d, p) {
      LooksUpIff(n, d, p);
      assert (d, p) in entries;
      var i :| 0 <= i < |entries| && entries[i] == (d, p);
      assert Packages(entries)[i] == p;
    }
  }

  /** What pass 3 asks about is what the cache does not hold, or holds too long. */
  lemma DoneAreStale(n: Naming, deps: seq<Dependency>, files: Files, now: int, ttl: nat, cached: map<Package, seq<Entry>>)
    requires cached == Cached(Firsts(Packages(Entries(n, deps))), files, now, ttl)
    ensures forall p :: p in Misses(Firsts(Packages(Entries(n, deps))), cached) <==>
      (exists d :: d in deps && LooksUp(n, d, p)) && !Unexpired(files, p, now, ttl)
  {
    var unique := Firsts(Packages(Entries(n, deps)));
    CachedIsUnexpired(unique, files, now, ttl);
    hide Cached, Firsts, Packages, Entries, LooksUp, CacheKey;
    forall p ensures p in unique <==> exists d :: d in deps && LooksUp(n, d, p) { UniqueArePackages(n, deps, p); }
  }

  /** A reported record: a named advisory held for a package that a dependency is looked up as, with
      what it says and what is known of that dependency. */
  ghost predicate IsRecord(n: Naming, severity: Entry -> string, deps: seq<Dependency>,
                           payloads: map<Package, seq<Entry>>, v: Vulnerability) {
    exists d, p, e ::
      && d in deps && LooksUp(n, d, p) && p in payloads && e in payloads[p]
      && v.id == e.id != "" && v.severity == severity(e) && v.entry == e
      && v.ecosystem == d.ecosystem && v.packageName == d.name && v.packageVersion == p.version
      && v.direct == d.direct && v.resolutionPath == (if d.via.Some? then d.via.value else "")
      && v.sourceAnalyzer == "cve"
  }

  lemma RecordsOf(n: Naming, severity: Entry -> string, deps: seq<Dependency>, payloads: map<Package, seq<Entry>>,
                  vulns: seq<Vulnerability>)
    requires vulns == MergeAll(VULNERABILITIES, Merged([], {}), Found(severity, Entries(n, deps), payloads)).target
    ensures forall v :: v in vulns ==> IsRecord(n, severity, deps, payloads, v)
  {
    var found := Found(severity, Entries(n, deps), payloads);
    MergedAreReports(VULNERABILITIES, found);
    hide Found, Entries, MergeAll, LooksUp, PackageOf;
    forall v | v in vulns ensures IsRecord(n, severity, deps, payloads, v) {
      var x, e :| x in Entries(n, deps) && e in PayloadOf(payloads, x.1) && e.id != "" && v == VulnerabilityOf(severity, e, x.0, x.1);
      LooksUpIff(n, x.0, x.1);
    }
  }

  /** `a` may stand before `b`: more severe, or as severe and not after it by ecosystem, package and id. */
  ghost predicate NotAfter(a: Vulnerability, b: Vulnerability) {
    && (b.severity == "high" ==> a.severity == "high")
    && (b.severity == "medium" ==> a.severity == "high" || a.severity == "medium")
    && (b.severity == "low" ==> a.severity == "high" || a.severity == "medium" || a.severity == "low")
    && (a.severity == b.severity ==>
          if a.ecosystem != b.ecosystem then StrLE(a.ecosystem, b.ecosystem)
          else if a.packageName != b.packageName then StrLE(a.packageName, b.packageName)
          else StrLE(a.id, b.id))
  }

  lemma VulnLEMeans(a: Vulnerability, b: Vulnerability)
    requires VulnLE(a, b)
    ensures NotAfter(a, b)
  {
    hide StrLE;
    if a.severity == b.severity {
      StrOrder();
      ThreeCompare([a.ecosystem, a.packageName, a.id], [b.ecosystem, b.packageName, b.id]);
    }
  }

  lemma ThreeCompare(a: seq<string>, b: seq<string>)
    requires |a| == |b| == 3 && ListLE(a, b)
    ensures if a[0] != b[0] then StrLE(a[0], b[0]) else if a[1] != b[1] then StrLE(a[1], b[1]) else StrLE(a[2], b[2])
  {
    StrOrder();
    hide StrLE;
    assert a[1..][1..] == a[2..] && b[1..][1..] == b[2..];
    assert LexLE(StrLE, a, b) == if a[0] == b[0] then LexLE(StrLE, a[1..], b[1..]) else StrLE(a[0], b[0]);
    assert LexLE(StrLE, a[1..], b[1..]) == if a[1] == b[1] then LexLE(StrLE, a[2..], b[2..]) else StrLE(a[1], b[1]);
  }

  lemma SortedRecords(vulns: seq<Vulnerability>)
    ensures |Sort(VulnLE, vulns)| == |vulns|
    ensures forall v :: v in Sort(VulnLE, vulns) <==> v in vulns
    ensures forall i, j :: 0 <= i < j < |vulns| ==> NotAfter(Sort(VulnLE, vulns)[i], Sort(VulnLE, vulns)[j])
  {
    VulnOrder();
    SortKeeps(VulnLE, vulns);
    var r := Sort(VulnLE, vulns);
    hide Sort, VulnLE, NotAfter;
    forall i, j | 0 <= i < j < |vulns| ensures NotAfter(r[i], r[j]) { VulnLEMeans(r[i], r[j]); }
  }

  /** All four passes. */
  method QueryVulnerabilities(n: Naming, severity: Entry -> string, deps: seq<Dependency>, wire: Wire, cache: CacheDir,
                              now: int, ttl: nat, batchSize: nat, ghost left: PagesLeft)
    returns (vulns: seq<Vulnerability>, summary: LookupSummary, ghost s: Start, ghost r: Run)
    requires wire.Faithful() && wire.log == [] && FinitelyPaged(wire.server, left) && batchSize > 0
    modifies wire, cache
    ensures var unique := Firsts(Packages(Entries(n, deps)));
      && s == Start(Cached(unique, old(cache.files), now, ttl), old(cache.files), now, cache.writable)
      && r.done == Misses(unique, s.cached)
      && summary.cached == |s.cached|
      && summary.cached + summary.queried + summary.skippedOffline == |unique|
    ensures Sound(s, r) && Stands(r, wire, summary, cache, r.payloads)
    ensures ServesUnexpired(s.cached, Firsts(Packages(Entries(n, deps))), old(cache.files), now, ttl)
    ensures forall p :: p in r.done <==> (exists d :: d in deps && LooksUp(n, d, p)) && !Unexpired(old(cache.files), p, now, ttl)
    ensures forall v :: v in vulns ==> IsRecord(n, severity, deps, r.payloads, v)
    ensures forall i, j :: 0 <= i < j < |vulns| ==> NotAfter(vulns[i], vulns[j])
    ensures Batches(wire.log) == Chunks(|r.done|, batchSize) && BatchesOfAtMost(wire.log, batchSize)
    ensures NoRecordTwice(wire.log)
    ensures summary.skippedNoVersion == Nameless(n, deps) && Tallied(deps, summary.inventoryOnly)
    ensures vulns == Sort(VulnLE, MergeAll(VULNERABILITIES, Merged([], {}), Found(severity, Entries(n, deps), r.payloads)).target)
  {
    hide Tallied, FinitelyPaged, Cached, Firsts, Packages, Distinct, Sort, VulnLE, Errors, IsRecord, NotAfter, LooksUp, Unexpired,
      ServesUnexpired, BatchesOfAtMost;
    summary := new LookupSummary();
    var entries, unique := Resolve(n, deps, summary);
    var cached := ServeCached(unique, cache, now, ttl, summary);
    var misses := Misses(unique, cached);
    s := Start(cached, cache.files, now, cache.writable);
    var payloads;
    payloads, r := QueryMisses(wire, summary, cache, misses, now, batchSize, cached, left, s);
    vulns := FanOut(severity, entries, payloads);
    RecordsOf(n, severity, deps, payloads, vulns);
    SortedRecords(vulns);
    vulns := Sort(VulnLE, vulns);
    CachedAndMisses(unique, s.files, now, ttl);
    DoneAreStale(n, deps, s.files, now, ttl, cached);
  }

  lemma {:induction false} CachedAndMisses(unique: seq<Package>, files: Files, now: int, ttl: nat)
    requires Distinct(unique)
    ensures |Cached(unique, files, now, ttl)| + |Misses(unique, Cached(unique, files, now, ttl))| == |unique|
  {
    var cached := Cached(unique, files, now, ttl);
    var misses := Misses(unique, cached);
    DistinctSize(unique);
    DistinctSize(misses);
    assert (set p | p in unique) == cached.Keys + set p | p in misses;
  }
}
