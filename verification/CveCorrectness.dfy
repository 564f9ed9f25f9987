/** What the four-pass lookup achieves, compared with asking a truthful server about every
    dependency on its own (src/attackmap/cve.py). */
module CveCorrectness {
  import opened Cve
  import opened Lists
  import opened Merge
  import opened Orders
  import opened Osv
  import opened Text

  // ---- the reference: one question per dependency ----

  /** Some dependency of this ecosystem and name, at this version, is listed under this advisory. */
  ghost predicate Reported(n: Naming, w: World, deps: seq<Dependency>, f: Fingerprint) {
    exists d :: d in deps && ReportedFor(n, w, d, f)
  }

  ghost predicate ReportedFor(n: Naming, w: World, d: Dependency, f: Fingerprint) {
    var p := PackageOf(n, d);
    && p.Some? && f.0 == d.ecosystem && f.1 == d.name && f.2 == p.value.version
    && f.3 != "" && f.3 in w.listing(QueryOf(p.value))
  }

  ghost predicate Among(vulns: seq<Vulnerability>, f: Fingerprint) {
    exists v :: v in vulns && FingerprintOf(v) == f
  }

  /** Every payload the cache may serve is what the server would say. */
  ghost predicate CacheTells(w: World, cached: map<Package, seq<Entry>>) {
    forall p :: p in cached ==> cached[p] == w.Advisories(QueryOf(p))
  }

  lemma AskedIsHeld(w: World, server: Server, s: Start, r: Run, p: Package)
    requires w.Honest(server) && FromServer(server, r.log) && Sound(s, r) && p in r.done
    ensures p in r.payloads
  {
    hide Held, Filed, Complete, World.Honest, FromServer;
    HonestAnswers(w, server, r.log);
    if p in r.failed { FailureIsUnanswered(r, p); }
  }

  lemma FailureIsUnanswered(r: Run, p: Package)
    requires Excused(r) && p in r.failed
    ensures r.failed[p] < |r.log| && !Answered(r.log[r.failed[p]])
  {
    assert FailedAt(r.log, QueryOf(p), r.failed[p]);
  }

  lemma NoneIsSkipped(s: Start, r: Run)
    requires Held(s, r) && Counted(s, r) && Distinct(r.done)
    requires forall p :: p in r.done ==> p in r.payloads && p !in s.cached
    ensures r.skipped == 0 && r.payloads.Keys == s.cached.Keys + set p | p in r.done
  {
    hide Complete, QueryOf;
    var asked := set p | p in r.done;
    DistinctSize(r.done);
    forall p ensures p in r.payloads <==> p in s.cached || p in r.done {}
    SizeOfBoth(r.payloads.Keys, s.cached.Keys, asked);
  }

  lemma SizeOfBoth<T>(all: set<T>, a: set<T>, b: set<T>)
    requires a !! b && forall x :: x in all <==> x in a || x in b
    ensures all == a + b && |all| == |a| + |b|
  {
    assert all == a + b;
  }

  /** With a truthful server nothing is skipped, and each package's payload is its advisories. */
  lemma EveryPackageAnswered(w: World, server: Server, unique: seq<Package>, s: Start, r: Run)
    requires w.Honest(server) && FromServer(server, r.log) && CacheTells(w, s.cached)
    requires Sound(s, r) && Distinct(unique) && r.done == Misses(unique, s.cached)
    ensures r.skipped == 0
    ensures forall p :: p in unique ==> p in r.payloads && r.payloads[p] == w.Advisories(QueryOf(p))
  {
    forall p | p in r.done ensures p in r.payloads { AskedIsHeld(w, server, s, r, p); }
    hide Filed, Excused, QueryOf, World.Honest, World.Advisories, Complete, FromServer;
    NoneIsSkipped(s, r);
    forall p | p in unique ensures p in r.payloads && r.payloads[p] == w.Advisories(QueryOf(p)) {
      assert p in s.cached || p in r.done;
      if p !in s.cached { CompleteIsTrue(w, server, r.log, QueryOf(p), r.payloads[p]); }
    }
  }

  lemma AdvisoryIds(w: World, server: Server, q: Query, id: string)
    requires w.Honest(server) && id != ""
    ensures (exists e :: e in w.Advisories(q) && e.id == id) <==> id in w.listing(q)
  {
    var ids := NonEmpty(w.listing(q));
    NonEmptyIds(w.listing(q));
    if e :| e in w.Advisories(q) && e.id == id {
      var k :| 0 <= k < |ids| && w.Advisories(q)[k] == e;
      assert ids[k] in ids && ids[k] != "";
    }
    if id in w.listing(q) {
      var k :| 0 <= k < |ids| && ids[k] == id;
      assert w.Advisories(q)[k] == w.record(id) && w.Advisories(q)[k] in w.Advisories(q);
    }
  }

  lemma FoundWasReported(n: Naming, w: World, server: Server, severity: Entry -> string, deps: seq<Dependency>,
                         payloads: map<Package, seq<Entry>>, v: Vulnerability)
    requires w.Honest(server) && v in Found(severity, Entries(n, deps), payloads)
    requires forall x :: x in Entries(n, deps) ==> x.1 in payloads && payloads[x.1] == w.Advisories(QueryOf(x.1))
    ensures Reported(n, w, deps, FingerprintOf(v))
  {
    hide World.Advisories, World.Honest, QueryOf, PackageOf, Found;
    var x, e :| x in Entries(n, deps) && e in PayloadOf(payloads, x.1) && e.id != "" && v == VulnerabilityOf(severity, e, x.0, x.1);
    AdvisoryIds(w, server, QueryOf(x.1), e.id);
    assert ReportedFor(n, w, x.0, FingerprintOf(v));
  }

  lemma FoundIsReported(n: Naming, w: World, server: Server, severity: Entry -> string, deps: seq<Dependency>,
                        payloads: map<Package, seq<Entry>>, f: Fingerprint)
    requires w.Honest(server)
    requires forall x :: x in Entries(n, deps) ==> x.1 in payloads && payloads[x.1] == w.Advisories(QueryOf(x.1))
    ensures Among(Found(severity, Entries(n, deps), payloads), f)
            <==> Reported(n, w, deps, f)
  {
    hide World.Advisories, World.Honest, QueryOf, PackageOf;
    var entries := Entries(n, deps);
    hide Found;
    if v :| v in Found(severity, entries, payloads) && FingerprintOf(v) == f {
      FoundWasReported(n, w, server, severity, deps, payloads, v);
    }
    if Reported(n, w, deps, f) {
      var d :| d in deps && ReportedFor(n, w, d, f);
      var p := PackageOf(n, d).value;
      AdvisoryIds(w, server, QueryOf(p), f.3);
      var e :| e in w.Advisories(QueryOf(p)) && e.id == f.3;
      assert (d, p) in entries;
      var v := VulnerabilityOf(severity, e, d, p);
      assert v in Found(severity, entries, payloads);
    }
  }

  /** Merging keeps each fingerprint that was found, and keeps it once. */
  lemma MergedFingerprints(found: seq<Vulnerability>, f: Fingerprint)
    ensures
      var kept := MergeAll(VULNERABILITIES, Merged([], {}), found).target;
      && Distinct(Keys(VULNERABILITIES, kept))
      && (f in Keys(VULNERABILITIES, kept) <==> Among(found, f))
  {
    MergeIsFoldOfReports(VULNERABILITIES, found);
    var keys := Keys(VULNERABILITIES, found);
    if f in keys {
      var i :| 0 <= i < |keys| && keys[i] == f;
      assert found[i] in found;
    }
    if v :| v in found && FingerprintOf(v) == f {
      var i :| 0 <= i < |found| && found[i] == v;
      assert keys[i] == f;
    }
  }

  /** The merged and sorted list has the fingerprints found, each once. */
  lemma SortedFingerprints(found: seq<Vulnerability>, vulns: seq<Vulnerability>)
    requires vulns == Sort(VulnLE, MergeAll(VULNERABILITIES, Merged([], {}), found).target)
    ensures forall f :: Among(vulns, f) <==> Among(found, f)
    ensures |vulns| == |set v | v in vulns :: FingerprintOf(v)|
    ensures InOrder(VulnLE, vulns)
  {
    var kept := MergeAll(VULNERABILITIES, Merged([], {}), found).target;
    var keys := Keys(VULNERABILITIES, kept);
    VulnOrder();
    SortKeeps(VulnLE, kept);
    hide Sort, VulnLE, MergeAll, FingerprintOf;
    forall f
      ensures Among(vulns, f) <==> Among(found, f)
      ensures f in keys <==> Among(vulns, f)
    {
      MergedFingerprints(found, f);
      KeysOf(kept, f);
    }
    MergedFingerprints(found, ("", "", "", ""));
    DistinctSize(keys);
    assert (set f | f in keys) == set v | v in vulns :: FingerprintOf(v) by {
      assert forall f :: f in keys <==> Among(vulns, f);
    }
  }

  lemma EntriesAnswered(w: World, server: Server, entries: seq<(Dependency, Package)>, s: Start, r: Run)
    requires w.Honest(server) && FromServer(server, r.log) && CacheTells(w, s.cached) && Sound(s, r)
    requires r.done == Misses(Firsts(Packages(entries)), s.cached)
    ensures forall x :: x in entries ==> x.1 in r.payloads && r.payloads[x.1] == w.Advisories(QueryOf(x.1))
  {
    hide World.Honest, World.Advisories, Sound, FromServer, CacheTells, Misses, QueryOf;
    var unique := Firsts(Packages(entries));
    EveryPackageAnswered(w, server, unique, s, r);
    forall x | x in entries ensures x.1 in unique {
      var i :| 0 <= i < |entries| && entries[i] == x;
      assert Packages(entries)[i] == x.1;
    }
  }

  /** From a truthful server, and a cache that tells the truth, the batched, cached and memoized
      lookup reports exactly what asking per dependency would, each (ecosystem, name, version, id)
      once, whatever the batch size, the order, and the repeats among the dependencies. */
  lemma LookupIsNaiveLookup(n: Naming, w: World, server: Server, severity: Entry -> string, deps: seq<Dependency>,
                            s: Start, r: Run, vulns: seq<Vulnerability>)
    requires w.Honest(server) && FromServer(server, r.log) && CacheTells(w, s.cached) && Sound(s, r)
    requires r.done == Misses(Firsts(Packages(Entries(n, deps))), s.cached)
    requires vulns == Sort(VulnLE, MergeAll(VULNERABILITIES, Merged([], {}), Found(severity, Entries(n, deps), r.payloads)).target)
    ensures forall f :: Among(vulns, f) <==> Reported(n, w, deps, f)
    ensures |vulns| == |set v | v in vulns :: FingerprintOf(v)|
    ensures InOrder(VulnLE, vulns)
  {
    hide Found, Entries, Sort, VulnLE, World.Honest, World.Advisories, Sound, MergeAll, Reported, FromServer, CacheTells,
      Misses, Among, FingerprintOf, Packages, Firsts, QueryOf;
    EntriesAnswered(w, server, Entries(n, deps), s, r);
    SortedFingerprints(Found(severity, Entries(n, deps), r.payloads), vulns);
    forall f ensures Among(vulns, f) <==> Reported(n, w, deps, f) {
      FoundIsReported(n, w, server, severity, deps, r.payloads, f);
    }
  }

  lemma KeysOf(kept: seq<Vulnerability>, f: Fingerprint)
    ensures f in Keys(VULNERABILITIES, kept) <==> Among(kept, f)
  {
    var keys := Keys(VULNERABILITIES, kept);
    if f in keys {
      var i :| 0 <= i < |keys| && keys[i] == f;
      assert kept[i] in kept;
    }
    if v :| v in kept && FingerprintOf(v) == f {
      var i :| 0 <= i < |kept| && kept[i] == v;
      assert keys[i] == f;
    }
  }

  // ---- the cache, from run to run ----

  /** A package that is looked up at all. */
  predicate LookedUp(p: Package) {
    p.ecosystem in OSV_ECOSYSTEM
  }

  /** Neither the name nor the version has the separator of the cache key in it. */
  predicate Plain(p: Package) {
    '|' !in p.name && '|' !in p.version
  }

  lemma EcosystemsHaveNoBar(e: string)
    requires e in OSV_ECOSYSTEM
    ensures '|' !in e
  {}

  /** Of two packages with the same cache file, neither is plain, or they are the same. */
  lemma PlainKeysDiffer(p: Package, q: Package)
    requires LookedUp(p) && LookedUp(q) && Plain(p) && CacheKey(p) == CacheKey(q)
    ensures p == q
  {
    hide CacheKey, Plain;
    EcosystemsHaveNoBar(p.ecosystem);
    EcosystemsHaveNoBar(q.ecosystem);
    KeyParts(p);
    KeyParts(q);
    CutAtFirst('|', p.ecosystem, p.name + "|" + p.version, q.ecosystem, q.name + "|" + q.version);
    PlainParts(p);
    OnlyBar(p.name, p.version, q.name, q.version);
  }

  lemma KeyParts(p: Package)
    ensures CacheKey(p) == p.ecosystem + "|" + (p.name + "|" + p.version)
  {}

  lemma PlainParts(p: Package)
    requires Plain(p)
    ensures '|' !in p.name && '|' !in p.version
  {}

  lemma OnlyBar(a: string, x: string, b: string, y: string)
    requires '|' !in a && '|' !in x && a + "|" + x == b + "|" + y
    ensures a == b && x == y
  {
    var s, t := a + "|" + x, b + "|" + y;
    assert t[|b|] == '|';
    assert forall i :: 0 <= i < |s| && i != |a| ==> s[i] == if i < |a| then a[i] else x[i - |a| - 1];
    assert |a| == |b|;
    assert s[..|a|] == a && t[..|b|] == b && s[|a| + 1..] == x && t[|b| + 1..] == y;
  }

  /** Another package of the same ecosystem with the same cache file. */
  lemma Collider(p: Package) returns (q: Package)
    requires !Plain(p)
    ensures q.ecosystem == p.ecosystem && q.name != p.name && CacheKey(q) == CacheKey(p)
  {
    if '|' in p.name {
      var i :| 0 <= i < |p.name| && p.name[i] == '|';
      q := p.(name := p.name[..i], version := p.name[i + 1..] + "|" + p.version);
      assert p.name == p.name[..i] + "|" + p.name[i + 1..];
      SameKey(p.ecosystem, p.name[..i], p.name[i + 1..], p.version);
      assert |q.name| < |p.name|;
    } else {
      var i :| 0 <= i < |p.version| && p.version[i] == '|';
      q := p.(name := p.name + "|" + p.version[..i], version := p.version[i + 1..]);
      assert p.version == p.version[..i] + "|" + p.version[i + 1..];
      SameKey(p.ecosystem, p.name, p.version[..i], p.version[i + 1..]);
      assert |q.name| > |p.name|;
    }
  }

  /** A package shares its cache file with another exactly when its name or its version has a bar in it. */
  lemma SharesItsFileIff(p: Package)
    requires LookedUp(p)
    ensures (exists q :: LookedUp(q) && q != p && CacheKey(q) == CacheKey(p)) <==> !Plain(p)
  {
    if Plain(p) {
      forall q | LookedUp(q) && CacheKey(q) == CacheKey(p) ensures q == p { PlainKeysDiffer(p, q); }
    } else {
      hide CacheKey;
      var q := Collider(p);
      assert LookedUp(q) && q != p;
    }
  }

  /** Two packages with one cache file. */
  lemma BarredNamesCollide()
    ensures CacheKey(Package("npm", "a|b", "1")) == CacheKey(Package("npm", "a", "b|1"))
  {
    SameKey("npm", "a", "b", "1");
    assert "a" + "|" + "b" == "a|b" && "b" + "|" + "1" == "b|1";
  }

  lemma SameKey(e: string, a: string, b: string, c: string)
    ensures CacheKey(Package(e, a, b + "|" + c)) == CacheKey(Package(e, a + "|" + b, c))
  {
    assert e + "|" + a + "|" + (b + "|" + c) == e + "|" + (a + "|" + b) + "|" + c;
  }

  /** The cache tells the truth about every package it holds. */
  ghost predicate TrueCache(w: World, files: Files, now: int, ttl: nat) {
    forall p :: LookedUp(p) && Fresh(files, p, now, ttl).Some? ==>
      Fresh(files, p, now, ttl).value == w.Advisories(QueryOf(p))
  }

  /** If the cache holds an answer for `p`, it is the server's. */
  ghost predicate TellsAbout(w: World, files: Files, now: int, ttl: nat, p: Package) {
    Fresh(files, p, now, ttl).Some? ==> Fresh(files, p, now, ttl).value == w.Advisories(QueryOf(p))
  }

  /** A run against a truthful server. */
  ghost predicate TruthfulRun(w: World, server: Server, s: Start, r: Run) {
    w.Honest(server) && FromServer(server, r.log) && Sound(s, r) && forall q :: q in r.done ==> LookedUp(q)
  }

  /** Whatever else is looked up, a run keeps the cache truthful about a plain package: no partial
      answer is ever stored, and no answer to another package's question in its place. */
  lemma CacheStaysTrue(w: World, server: Server, s: Start, r: Run, ttl: nat, p: Package)
    requires TruthfulRun(w, server, s, r) && LookedUp(p) && Plain(p)
    requires TellsAbout(w, s.files, s.now, ttl, p)
    ensures TellsAbout(w, r.files, s.now, ttl, p)
  {
    if Fresh(r.files, p, s.now, ttl).Some? {
      hide World.Advisories, World.Honest, CacheKey;
      var key := CacheKey(p);
      if AsBefore(s, r, key) {
        assert Fresh(s.files, p, s.now, ttl) == Fresh(r.files, p, s.now, ttl);
      } else {
        assert FromRun(s, r, key);
        var q :| q in r.done && q in r.payloads && CacheKey(q) == key && r.files[key] == (s.now, r.payloads[q]);
        PlainKeysDiffer(p, q);
        CompleteIsTrue(w, server, r.log, QueryOf(q), r.payloads[q]);
      }
    }
  }

  /** The cache is kept truthful about a package by every such run exactly when it is plain. */
  lemma CacheStaysTrueIffPlain(p: Package)
    requires LookedUp(p)
    ensures
      (forall w, server, s, r, ttl: nat :: TruthfulRun(w, server, s, r) && TellsAbout(w, s.files, s.now, ttl, p) ==>
         TellsAbout(w, r.files, s.now, ttl, p))
      <==> Plain(p)
  {
    hide TruthfulRun, TellsAbout, CacheKey;
    if Plain(p) {
      forall w, server, s, r, ttl: nat | TruthfulRun(w, server, s, r) && TellsAbout(w, s.files, s.now, ttl, p)
        ensures TellsAbout(w, r.files, s.now, ttl, p)
      {
        CacheStaysTrue(w, server, s, r, ttl, p);
      }
    } else {
      var q := Collider(p);
      var w, server, s, r := FalsifyingRun(p, q);
      assert TruthfulRun(w, server, s, r) && TellsAbout(w, s.files, s.now, 0, p) && !TellsAbout(w, r.files, s.now, 0, p);
    }
  }

  /** The world in which `p` has one advisory and no other package has any. */
  function OneAdvisory(p: Package): Query -> seq<string> {
    q => if q == QueryOf(p) then ["X"] else []
  }

  ghost function OneSpeaker(p: Package): Speaker {
    Speaker(OneAdvisory(p), id => Entry(id, ""), false)
  }

  /** Looking up `q`, which has none, files that under the name of `p`. */
  lemma FalsifyingRun(p: Package, q: Package) returns (w: World, server: Server, s: Start, r: Run)
    requires LookedUp(p) && LookedUp(q) && q.ecosystem == p.ecosystem && q.name != p.name && CacheKey(q) == CacheKey(p)
    ensures TruthfulRun(w, server, s, r)
    ensures TellsAbout(w, s.files, s.now, 0, p) && !TellsAbout(w, r.files, s.now, 0, p)
  {
    hide CacheKey, World.Honest, Sound, Speaker.Knows, Speaker.Server, Speaker.Left, TellsAbout, FromServer, FinitelyPaged;
    var speaker := OneSpeaker(p);
    w, server, s := speaker.Knows(), speaker.Server(), EMPTY_START;
    HonestServersExist(speaker.listing, speaker.record, false);
    OneCallIsComplete(p, q);
    r := AnsweredOnce(q, OneCall(p, q));
    FiledUnder(w, p, q, s.files, r.files);
  }

  predicate Always(key: string) { true }

  /** An empty cache that can be written. */
  const EMPTY_START: Start := Start(map[], map[], 0, Always)

  const NOTHING_DONE: Run := Run([], map[], 0, 0, map[], [], map[])

  lemma AnsweredOnce(q: Package, log: seq<Exchange>) returns (r: Run)
    requires Complete(log, QueryOf(q), [])
    ensures Sound(EMPTY_START, r) && r.log == log && r.done == [q] && r.files == map[CacheKey(q) := (0, [])]
  {
    NothingDoneIsSound();
    hide CacheKey, Sound, Complete, QueryOf;
    AnswerIsSound(EMPTY_START, NOTHING_DONE, log, q, []);
    r := Answer(EMPTY_START, NOTHING_DONE, log, q, []);
  }

  lemma NothingDoneIsSound()
    ensures Sound(EMPTY_START, NOTHING_DONE)
  {
    hide Sound;
    NoCallsYet(EMPTY_START, 0, 1);
  }

  lemma FiledUnder(w: World, p: Package, q: Package, before: Files, after: Files)
    requires CacheKey(q) == CacheKey(p) && before == map[] && after == before[CacheKey(q) := (0, [])]
    requires w == OneSpeaker(p).Knows()
    ensures TellsAbout(w, before, 0, 0, p) && !TellsAbout(w, after, 0, 0, p)
  {
    hide CacheKey, World.Advisories;
    HasAdvisory(p);
  }

  ghost function OneCall(p: Package, q: Package): seq<Exchange> {
    var req := Batch([QueryOf(q)]);
    [Exchange(req, OneSpeaker(p).Says(req))]
  }

  lemma OneCallIsComplete(p: Package, q: Package)
    requires q.ecosystem == p.ecosystem && q.name != p.name
    ensures FromServer(OneSpeaker(p).Server(), OneCall(p, q))
    ensures Complete(OneCall(p, q), QueryOf(q), [])
  {
    var log := OneCall(p, q);
    assert ItemAt(log, 0, 0, QueryOf(q));
    assert log[0].resp.items[0] == Listing([], false);
    assert CompleteFor(log, 0, 0, QueryOf(q), []);
  }

  lemma HasAdvisory(p: Package)
    ensures OneSpeaker(p).Knows().Advisories(QueryOf(p)) != []
  {
    assert NonEmpty(["X"][..0]) == [];
    assert NonEmpty(["X"]) == ["X"];
  }

  /** A package answered in this run, or served from the cache by it, needs no call at this time again. */
  lemma AnsweredIsCached(s: Start, r: Run, unique: seq<Package>, ttl: nat, p: Package)
    requires Sound(s, r) && s.cached == Cached(unique, s.files, s.now, ttl)
    requires p in r.payloads && s.writable(CacheKey(p))
    ensures Fresh(r.files, p, s.now, ttl).Some?
  {
    hide CacheKey, Complete;
    var key := CacheKey(p);
    if p in s.cached {
      assert Fresh(s.files, p, s.now, ttl).Some?;
      assert key in r.files;
      assert AsBefore(s, r, key) || FromRun(s, r, key);
    }
  }

  /** Each payload this run wrote to the cache holds all that some answer of the server said. */
  lemma OnlyCompletePayloadsAreWritten(s: Start, r: Run, key: string)
    requires Sound(s, r) && key in r.files && !AsBefore(s, r, key)
    ensures r.files[key].0 == s.now
    ensures exists p :: p in r.done && CacheKey(p) == key && Complete(r.log, QueryOf(p), r.files[key].1)
  {
    hide Complete;
    assert FromRun(s, r, key);
    var p :| p in r.done && p in r.payloads && CacheKey(p) == key && r.files[key] == (s.now, r.payloads[p]);
    assert p !in s.cached;
  }

  lemma LookedUpPackages(n: Naming, deps: seq<Dependency>, p: Package)
    requires p in Firsts(Packages(Entries(n, deps)))
    ensures LookedUp(p)
  {
    hide ConcreteVersion;
    var entries := Entries(n, deps);
    var i :| 0 <= i < |entries| && Packages(entries)[i] == p;
    assert entries[i] in entries;
    PackageIsLookedUp(n, entries[i].0);
  }

  lemma PackageIsLookedUp(n: Naming, d: Dependency)
    ensures PackageOf(n, d).Some? ==> LookedUp(PackageOf(n, d).value)
  {
    hide ConcreteVersion;
  }

  lemma TrueCacheTells(n: Naming, w: World, deps: seq<Dependency>, files: Files, now: int, ttl: nat)
    requires TrueCache(w, files, now, ttl)
    ensures CacheTells(w, Cached(Firsts(Packages(Entries(n, deps))), files, now, ttl))
  {
    hide World.Advisories, LookedUp, Fresh, Entries;
    var unique := Firsts(Packages(Entries(n, deps)));
    forall p | p in Cached(unique, files, now, ttl)
      ensures Cached(unique, files, now, ttl)[p] == w.Advisories(QueryOf(p))
    {
      LookedUpPackages(n, deps, p);
    }
  }

  /** The whole lookup against a truthful server and cache: nothing is skipped, and the records
      found are those of asking about each dependency on its own, each once and in order. */
  method QueryTruthfully(n: Naming, severity: Entry -> string, deps: seq<Dependency>, wire: Wire, cache: CacheDir,
                         now: int, ttl: nat, batchSize: nat, ghost left: PagesLeft, ghost w: World)
    returns (vulns: seq<Vulnerability>, summary: LookupSummary)
    requires wire.Faithful() && wire.log == [] && FinitelyPaged(wire.server, left) && batchSize > 0
    requires w.Honest(wire.server) && TrueCache(w, cache.files, now, ttl)
    modifies wire, cache
    ensures forall f :: Among(vulns, f) <==> Reported(n, w, deps, f)
    ensures |vulns| == |set v | v in vulns :: FingerprintOf(v)| && InOrder(VulnLE, vulns)
    ensures summary.skippedOffline == 0
  {
    ghost var s, r;
    hide World.Honest, TrueCache, FinitelyPaged, Sound, Found, Entries, Sort, MergeAll, Tallied, Cached, Firsts, Packages,
      Misses, VulnLE, Reported, FromServer, CacheTells, Among, Batches, Chunks, NoRecordTwice;
    TrueCacheTells(n, w, deps, cache.files, now, ttl);
    vulns, summary, s, r := QueryVulnerabilities(n, severity, deps, wire, cache, now, ttl, batchSize, left);
    EveryPackageAnswered(w, wire.server, Firsts(Packages(Entries(n, deps))), s, r);
    LookupIsNaiveLookup(n, w, wire.server, severity, deps, s, r, vulns);
  }
}
