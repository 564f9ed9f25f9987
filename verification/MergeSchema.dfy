/** The rules of the merge schema that upgrade records (src/attackmap/merge.py): which report of
    a duplicated record the merged record speaks for. */
module MergeSchema {
  import opened Wrappers
  import opened Merge

  // ---- routes ----

  datatype Route = Route(
    path: string, verb: string, file: string, line: Option<int>, sourceAnalyzer: Option<string>,
    auth: string, guards: seq<string>, guardEvidence: Option<string>)

  function UpgradeRouteAuth(existing: Route, duplicate: Route): Route {
    if existing.auth == "unknown" && duplicate.auth != "unknown" then
      existing.(auth := duplicate.auth, guards := duplicate.guards, guardEvidence := duplicate.guardEvidence)
    else existing
  }

  function RouteKey(r: Route): (string, string, string) { (r.path, r.verb, r.file) }

  const ROUTES: MergeRule<Route, (string, string, string)> := MergeRule("routes", RouteKey, Some(UpgradeRouteAuth))

  /** The earliest report whose auth is known, or the first report when none is. */
  ghost predicate AuthSource(reports: seq<Route>, m: nat) {
    && m < |reports|
    && (forall j :: 0 <= j < m ==> reports[j].auth == "unknown")
    && (reports[m].auth != "unknown" || (m == 0 && forall j :: 0 <= j < |reports| ==> reports[j].auth == "unknown"))
  }

  function WithAuthOf(r: Route, source: Route): Route {
    r.(auth := source.auth, guards := source.guards, guardEvidence := source.guardEvidence)
  }

  /** The first report of a route, with the auth and guards of the earliest that knows them. */
  ghost predicate RouteOf(reports: seq<Route>, r: Route) {
    exists m: nat :: AuthSource(reports, m) && r == WithAuthOf(reports[0], reports[m])
  }

  lemma AuthSourceExtends(reports: seq<Route>, m: nat)
    requires |reports| > 1 && AuthSource(reports[..|reports| - 1], m)
    ensures
      var n := |reports| - 1;
      AuthSource(reports, if reports[m].auth == "unknown" && reports[n].auth != "unknown" then n else m)
  {
    assert forall j :: 0 <= j < |reports| - 1 ==> reports[..|reports| - 1][j] == reports[j];
  }

  lemma {:induction false} FoldedRoute(reports: seq<Route>)
    requires reports != []
    ensures RouteOf(reports, Folded(ROUTES, reports))
  {
    var n := |reports| - 1;
    if n == 0 {
      assert AuthSource(reports, 0);
    } else {
      FoldedRoute(reports[..n]);
      var m: nat :| AuthSource(reports[..n], m) && Folded(ROUTES, reports[..n]) == WithAuthOf(reports[0], reports[m]);
      AuthSourceExtends(reports, m);
      hide AuthSource;
      assert Folded(ROUTES, reports) == UpgradeRouteAuth(Folded(ROUTES, reports[..n]), reports[n]);
    }
  }

  /** Every merged route has the path, verb, file, line and analyzer of its first report, and the
      auth and guards of its earliest report with known auth. */
  lemma MergedRoutes(items: seq<Route>, i: nat)
    requires i < |MergeAll(ROUTES, Merged([], {}), items).target|
    ensures
      var r := MergeAll(ROUTES, Merged([], {}), items).target[i];
      RouteOf(Reports(ROUTES, items, RouteKey(r)), r)
  {
    UpgradesKeepKeys();
    MergeIsFoldOfReports(ROUTES, items);
    var r := MergeAll(ROUTES, Merged([], {}), items).target[i];
    assert IsFold(ROUTES, items, r);
    FoldedRoute(Reports(ROUTES, items, RouteKey(r)));
  }

  // ---- routes, field by field ----

  ghost predicate SameRoute(a: Route, b: Route) {
    a.path == b.path && a.verb == b.verb && a.file == b.file
  }

  lemma RouteKeyMeans(a: Route, b: Route)
    ensures RouteKey(a) == RouteKey(b) <==> SameRoute(a, b)
  {}

  /** `f` is the first place of the route, and `m` the first where its auth is known, or `f` if it is nowhere. */
  ghost predicate FromPlaces(items: seq<Route>, r: Route, f: nat, m: nat) {
    && f < |items| && m < |items| && SameRoute(items[f], r) && SameRoute(items[m], r)
    && (forall k :: 0 <= k < f ==> !SameRoute(items[k], r))
    && (forall k :: 0 <= k < m && SameRoute(items[k], r) ==> items[k].auth == "unknown")
    && (items[m].auth == "unknown" ==> m == f && forall k :: 0 <= k < |items| && SameRoute(items[k], r) ==> items[k].auth == "unknown")
    && r.line == items[f].line && r.sourceAnalyzer == items[f].sourceAnalyzer
    && r.auth == items[m].auth && r.guards == items[m].guards && r.guardEvidence == items[m].guardEvidence
  }

  /** One record for each path, verb and file; its line and analyzer are those of the first report,
      its auth, guards and guard evidence those of the first that knows them. */
  ghost predicate RoutesMerged(items: seq<Route>, target: seq<Route>) {
    && (forall v :: v in items ==> exists r :: r in target && SameRoute(v, r))
    && (forall i, j :: 0 <= i < j < |target| ==> !SameRoute(target[i], target[j]))
    && (forall r :: r in target ==> exists f: nat, m: nat :: FromPlaces(items, r, f, m))
  }

  lemma MergedRouteFields(items: seq<Route>)
    ensures RoutesMerged(items, MergeAll(ROUTES, Merged([], {}), items).target)
  {
    var target := MergeAll(ROUTES, Merged([], {}), items).target;
    UpgradesKeepKeys();
    MergedByKey(ROUTES, items);
    forall v | v in items ensures exists r :: r in target && SameRoute(v, r) {
      var r :| r in target && ROUTES.key(r) == ROUTES.key(v);
      RouteKeyMeans(v, r);
    }
    forall i, j | 0 <= i < j < |target| ensures !SameRoute(target[i], target[j]) {
      assert ROUTES.key(target[i]) != ROUTES.key(target[j]);
      RouteKeyMeans(target[i], target[j]);
    }
    forall r | r in target ensures exists f: nat, m: nat :: FromPlaces(items, r, f, m) {
      var i: nat :| i < |target| && target[i] == r;
      MergedRoutes(items, i);
      RouteFromPlaces(items, r);
    }
  }

  lemma RouteFromPlaces(items: seq<Route>, r: Route)
    requires RouteOf(Reports(ROUTES, items, RouteKey(r)), r)
    ensures exists f: nat, m: nat :: FromPlaces(items, r, f, m)
  {
    var reports, places := Reports(ROUTES, items, RouteKey(r)), Places(ROUTES, items, RouteKey(r));
    ReportsStand(ROUTES, items, RouteKey(r));
    RoutesStandAt(items, r);
    hide Places, Reports;
    var j: nat :| AuthSource(reports, j) && r == WithAuthOf(reports[0], reports[j]);
    PlacesDecide(items, r, reports, places, j);
  }

  lemma RoutesStandAt(items: seq<Route>, r: Route)
    ensures forall k: nat :: k < |items| && SameRoute(items[k], r) ==> k in Places(ROUTES, items, RouteKey(r))
    ensures forall v :: v in Reports(ROUTES, items, RouteKey(r)) ==> SameRoute(v, r)
  {
    hide Places, Reports;
    forall k: nat | k < |items| && SameRoute(items[k], r) ensures k in Places(ROUTES, items, RouteKey(r)) {
      RouteKeyMeans(items[k], r);
      AllPlaces(ROUTES, items, RouteKey(r), k);
    }
    forall v | v in Reports(ROUTES, items, RouteKey(r)) ensures SameRoute(v, r) { RouteKeyMeans(v, r); }
  }

  lemma PlacesDecide(items: seq<Route>, r: Route, reports: seq<Route>, places: seq<nat>, j: nat)
    requires StandIn(items, places, reports) && AuthSource(reports, j) && r == WithAuthOf(reports[0], reports[j])
    requires forall k: nat :: k < |items| && SameRoute(items[k], r) ==> k in places
    requires forall v :: v in reports ==> SameRoute(v, r)
    ensures exists f: nat, m: nat :: FromPlaces(items, r, f, m)
  {
    assert reports[0] in reports && reports[j] in reports;
    forall k: nat | k < |items| && SameRoute(items[k], r)
      ensures k >= places[0] && (k < places[j] ==> items[k].auth == "unknown")
      ensures reports[j].auth == "unknown" ==> items[k].auth == "unknown"
    {
      var t :| 0 <= t < |places| && places[t] == k;
      assert items[places[t]] == reports[t];
      if t > 0 { assert places[0] < places[t]; }
      if t > j { assert places[j] < places[t]; }
    }
    hide SameRoute;
    assert FromPlaces(items, r, places[0], places[j]);
  }

  // ---- severity-ranked records ----

  datatype Confidence = Unset | Level(name: string) | Score(value: real)

  /** The fields of code weaknesses, cloud misconfigurations and app-surface issues that merging
      looks at; a field a record's class does not have is unset. */
  datatype Issue = Issue(
    kind: string, file: string, line: Option<int>, resource: Option<string>,
    severity: string, confidence: Confidence,
    evidenceText: Option<string>, context: Option<string>, escalationPath: Option<string>,
    platform: Option<string>, sourceAnalyzer: Option<string>,
    sourceKind: Option<string>, sourceLine: Option<int>)

  function SeverityRank(severity: string): int {
    if severity == "low" then 0 else if severity == "medium" then 1 else if severity == "high" then 2 else -1
  }

  function ConfidenceRank(c: Confidence): real {
    match c
    case Unset => 0.6
    case Level(name) => if name == "low" then 0.3 else if name == "high" then 0.9 else 0.6
    case Score(value) => value
  }

  predicate Outranks(a: Issue, b: Issue) {
    || SeverityRank(a.severity) > SeverityRank(b.severity)
    || (SeverityRank(a.severity) == SeverityRank(b.severity) && ConfidenceRank(a.confidence) > ConfidenceRank(b.confidence))
  }

  function Carried<T>(winner: Option<T>, existing: Option<T>): Option<T> {
    if winner.Some? then winner else existing
  }

  function KeepMoreSevere(existing: Issue, duplicate: Issue): Issue {
    if Outranks(duplicate, existing) then
      existing.(
        severity := duplicate.severity, confidence := duplicate.confidence,
        evidenceText := Carried(duplicate.evidenceText, existing.evidenceText),
        context := Carried(duplicate.context, existing.context),
        escalationPath := Carried(duplicate.escalationPath, existing.escalationPath),
        platform := Carried(duplicate.platform, existing.platform),
        sourceAnalyzer := Carried(duplicate.sourceAnalyzer, existing.sourceAnalyzer),
        sourceKind := duplicate.sourceKind, sourceLine := duplicate.sourceLine)
    else existing
  }

  const NATIVE_WEAKNESS_KINDS: set<string> :=
    {"unbounded_copy", "format_string", "native_command_exec", "tainted_copy_length", "alloc_size_overflow"}

  function UpgradeNativeWeakness(existing: Issue, duplicate: Issue): Issue {
    if existing.kind in NATIVE_WEAKNESS_KINDS then KeepMoreSevere(existing, duplicate) else existing
  }

  datatype IssueKey = IssueKey(
    kind: string, file: string, line: Option<int>, resource: Option<string>, evidence: Option<string>)

  function WeaknessKey(i: Issue): IssueKey {
    IssueKey(i.kind, i.file, i.line, None, if i.kind in NATIVE_WEAKNESS_KINDS then i.evidenceText else None)
  }

  function CloudKey(i: Issue): IssueKey { IssueKey(i.kind, i.file, i.line, i.resource, i.evidenceText) }

  function AppSurfaceKey(i: Issue): IssueKey { IssueKey(i.kind, i.file, i.line, None, i.evidenceText) }

  const CODE_WEAKNESSES: MergeRule<Issue, IssueKey> := MergeRule("code_weaknesses", WeaknessKey, Some(UpgradeNativeWeakness))
  const CLOUD_MISCONFIGS: MergeRule<Issue, IssueKey> := MergeRule("cloud_misconfigs", CloudKey, Some(KeepMoreSevere))
  const APP_SURFACE_ISSUES: MergeRule<Issue, IssueKey> := MergeRule("app_surface_issues", AppSurfaceKey, Some(KeepMoreSevere))

  /** No upgrade changes what a record is identified by, so the lazily built index stays exact. */
  lemma UpgradesKeepKeys()
    ensures ROUTES.KeepsKeys() && CODE_WEAKNESSES.KeepsKeys()
    ensures CLOUD_MISCONFIGS.KeepsKeys() && APP_SURFACE_ISSUES.KeepsKeys()
  {}

  /** The earliest report of maximal (severity, confidence). */
  ghost predicate Strongest(reports: seq<Issue>, m: nat) {
    && m < |reports|
    && (forall j :: 0 <= j < |reports| ==> !Outranks(reports[j], reports[m]))
    && (forall j :: 0 <= j < m ==> Outranks(reports[m], reports[j]))
  }

  /** `r` carries the rank and the traced input of one report, and its provenance when every
      report was stamped with an analyzer. */
  ghost predicate SpeaksFor(r: Issue, report: Issue) {
    r.severity == report.severity && r.confidence == report.confidence
    && r.sourceKind == report.sourceKind && r.sourceLine == report.sourceLine
  }

  ghost predicate SevereOf(reports: seq<Issue>, r: Issue) {
    exists m: nat :: Strongest(reports, m) && SpeaksFor(r, reports[m])
      && ((forall j :: 0 <= j < |reports| ==> reports[j].sourceAnalyzer.Some?) ==>
            r.sourceAnalyzer == reports[m].sourceAnalyzer)
  }

  lemma StrongestExtends(reports: seq<Issue>, m: nat)
    requires |reports| > 1 && Strongest(reports[..|reports| - 1], m)
    ensures
      var n := |reports| - 1;
      Strongest(reports, if Outranks(reports[n], reports[m]) then n else m)
  {
    var n := |reports| - 1;
    forall j | 0 <= j < n ensures !Outranks(reports[j], reports[m]) { assert reports[..n][j] == reports[j]; }
    forall j | 0 <= j < m ensures Outranks(reports[m], reports[j]) { assert reports[..n][j] == reports[j]; }
  }

  lemma {:induction false} FoldedSevere(rule: MergeRule<Issue, IssueKey>, reports: seq<Issue>)
    requires reports != [] && rule.upgrade == Some(KeepMoreSevere)
    ensures SevereOf(reports, Folded(rule, reports))
  {
    var n := |reports| - 1;
    if n == 0 {
      assert Strongest(reports, 0);
    } else {
      FoldedSevere(rule, reports[..n]);
      var before := Folded(rule, reports[..n]);
      var m: nat :| Strongest(reports[..n], m) && SpeaksFor(before, reports[m])
        && ((forall j :: 0 <= j < n ==> reports[..n][j].sourceAnalyzer.Some?) ==>
              before.sourceAnalyzer == reports[m].sourceAnalyzer);
      StrongestExtends(reports, m);
      assert Folded(rule, reports) == KeepMoreSevere(before, reports[n]);
      assert Outranks(reports[n], before) == Outranks(reports[n], reports[m]);
    }
  }

  /** Every merged cloud misconfiguration, and every merged app-surface issue, has the severity,
      confidence and traced input of its earliest report of maximal rank. */
  lemma MergedIssues(rule: MergeRule<Issue, IssueKey>, items: seq<Issue>, i: nat)
    requires rule == CLOUD_MISCONFIGS || rule == APP_SURFACE_ISSUES
    requires i < |MergeAll(rule, Merged([], {}), items).target|
    ensures
      var r := MergeAll(rule, Merged([], {}), items).target[i];
      SevereOf(Reports(rule, items, rule.key(r)), r)
  {
    UpgradesKeepKeys();
    MergeIsFoldOfReports(rule, items);
    var r := MergeAll(rule, Merged([], {}), items).target[i];
    assert IsFold(rule, items, r);
    FoldedSevere(rule, Reports(rule, items, rule.key(r)));
  }

  const SEVERE_WEAKNESSES: MergeRule<Issue, IssueKey> := MergeRule("code_weaknesses", WeaknessKey, Some(KeepMoreSevere))

  lemma {:induction false} FoldedWeakness(reports: seq<Issue>)
    requires reports != [] && forall j :: 0 <= j < |reports| ==> reports[j].kind == reports[0].kind
    ensures
      Folded(CODE_WEAKNESSES, reports) ==
        if reports[0].kind in NATIVE_WEAKNESS_KINDS then Folded(SEVERE_WEAKNESSES, reports) else reports[0]
    ensures Folded(CODE_WEAKNESSES, reports).kind == reports[0].kind
  {
    hide Outranks;
    if |reports| > 1 { FoldedWeakness(reports[..|reports| - 1]); }
  }

  /** A merged code weakness of a native kind speaks for its strongest report; one of any other
      kind is its first report, unchanged. */
  lemma MergedWeaknesses(items: seq<Issue>, i: nat)
    requires i < |MergeAll(CODE_WEAKNESSES, Merged([], {}), items).target|
    ensures
      var r := MergeAll(CODE_WEAKNESSES, Merged([], {}), items).target[i];
      var reports := Reports(CODE_WEAKNESSES, items, WeaknessKey(r));
      if r.kind in NATIVE_WEAKNESS_KINDS then SevereOf(reports, r) else reports != [] && r == reports[0]
  {
    UpgradesKeepKeys();
    MergeIsFoldOfReports(CODE_WEAKNESSES, items);
    var r := MergeAll(CODE_WEAKNESSES, Merged([], {}), items).target[i];
    assert IsFold(CODE_WEAKNESSES, items, r);
    var reports := Reports(CODE_WEAKNESSES, items, WeaknessKey(r));
    forall j | 0 <= j < |reports| ensures reports[j].kind == r.kind { assert reports[j] in reports; }
    FoldedWeakness(reports);
    FoldedSevere(SEVERE_WEAKNESSES, reports);
  }

  // ---- which report describes the merged record ----

  /** The fields a winning report carries over where it sets them. */
  datatype Described = EvidenceText | Context | EscalationPath | Platform | SourceAnalyzer {
    function Of(i: Issue): Option<string> {
      match this
      case EvidenceText => i.evidenceText
      case Context => i.context
      case EscalationPath => i.escalationPath
      case Platform => i.platform
      case SourceAnalyzer => i.sourceAnalyzer
    }
  }

  /** The j-th report outranks every report before it. */
  ghost predicate Leads(reports: seq<Issue>, j: nat) {
    j < |reports| && forall i :: 0 <= i < j ==> Outranks(reports[j], reports[i])
  }

  ghost predicate SetByLead(reports: seq<Issue>, f: Described, j: nat) {
    Leads(reports, j) && f.Of(reports[j]).Some?
  }

  /** `value` is what the latest leading report that sets the field says, or nothing if none does. */
  ghost predicate FromLatestLead(reports: seq<Issue>, f: Described, value: Option<string>) {
    if value.None? then forall j: nat :: !SetByLead(reports, f, j)
    else exists j: nat :: SetByLead(reports, f, j) && f.Of(reports[j]) == value
           && forall k: nat :: k > j ==> !SetByLead(reports, f, k)
  }

  lemma LeadsOfPrefix(reports: seq<Issue>, n: nat, j: nat)
    requires j < n <= |reports|
    ensures Leads(reports[..n], j) <==> Leads(reports, j)
  {
    assert forall i :: 0 <= i <= j ==> reports[..n][i] == reports[i];
  }

  lemma NextLeadsIff(reports: seq<Issue>, m: nat)
    requires |reports| > 1 && Strongest(reports[..|reports| - 1], m)
    ensures Leads(reports, |reports| - 1) <==> Outranks(reports[|reports| - 1], reports[m])
  {
    var n := |reports| - 1;
    forall j | 0 <= j < n ensures !Outranks(reports[j], reports[m]) { assert reports[..n][j] == reports[j]; }
  }

  lemma LatestLeadNext(reports: seq<Issue>, f: Described, before: Option<string>)
    requires |reports| > 1 && FromLatestLead(reports[..|reports| - 1], f, before)
    ensures
      var n := |reports| - 1;
      FromLatestLead(reports, f, if Leads(reports, n) then Carried(f.Of(reports[n]), before) else before)
  {
    var n := |reports| - 1;
    hide Outranks, Leads;
    forall j: nat | j < n ensures SetByLead(reports, f, j) <==> SetByLead(reports[..n], f, j) {
      LeadsOfPrefix(reports, n, j);
    }
    LeadsAreReports(reports);
    LeadsAreReports(reports[..n]);
    if SetByLead(reports, f, n) {
      assert forall k: nat :: k > n ==> !SetByLead(reports, f, k);
    } else if before.Some? {
      var j: nat :| SetByLead(reports[..n], f, j) && f.Of(reports[..n][j]) == before
        && forall k: nat :: k > j ==> !SetByLead(reports[..n], f, k);
      assert SetByLead(reports, f, j) && f.Of(reports[j]) == before;
      forall k: nat | k > j ensures !SetByLead(reports, f, k) { assert k < n ==> !SetByLead(reports[..n], f, k); }
    }
  }

  lemma LeadsAreReports(reports: seq<Issue>)
    ensures forall j: nat :: Leads(reports, j) ==> j < |reports|
  {}

  lemma {:induction false} FoldedDescription(rule: MergeRule<Issue, IssueKey>, reports: seq<Issue>, f: Described)
    requires reports != [] && rule.upgrade == Some(KeepMoreSevere)
    ensures FromLatestLead(reports, f, f.Of(Folded(rule, reports)))
  {
    var n := |reports| - 1;
    if n == 0 {
      assert SetByLead(reports, f, 0) <==> f.Of(reports[0]).Some?;
    } else {
      hide FromLatestLead, Leads, Strongest, Outranks;
      FoldedDescription(rule, reports[..n], f);
      var before := Folded(rule, reports[..n]);
      assert Folded(rule, reports) == KeepMoreSevere(before, reports[n]);
      NextOutranksIff(rule, reports);
      CarriedOver(f, before, reports[n]);
      LatestLeadNext(reports, f, f.Of(before));
    }
  }

  lemma CarriedOver(f: Described, existing: Issue, duplicate: Issue)
    ensures f.Of(KeepMoreSevere(existing, duplicate)) ==
      if Outranks(duplicate, existing) then Carried(f.Of(duplicate), f.Of(existing)) else f.Of(existing)
  {
    hide Outranks;
  }

  lemma NextOutranksIff(rule: MergeRule<Issue, IssueKey>, reports: seq<Issue>)
    requires |reports| > 1 && rule.upgrade == Some(KeepMoreSevere)
    ensures Outranks(reports[|reports| - 1], Folded(rule, reports[..|reports| - 1])) <==> Leads(reports, |reports| - 1)
  {
    var n := |reports| - 1;
    FoldedSevere(rule, reports[..n]);
    hide Leads, Strongest, Folded;
    var before := Folded(rule, reports[..n]);
    var m: nat :| Strongest(reports[..n], m) && SpeaksFor(before, reports[..n][m]);
    StrongestIsReport(reports[..n], m);
    NextLeadsIff(reports, m);
  }

  lemma StrongestIsReport(reports: seq<Issue>, m: nat)
    requires Strongest(reports, m)
    ensures m < |reports|
  {}

  /** The records that keep the more severe report: of code weaknesses, those of a native kind. */
  predicate BySeverity(rule: MergeRule<Issue, IssueKey>, kind: string) {
    || rule.attr == CLOUD_MISCONFIGS.attr || rule.attr == APP_SURFACE_ISSUES.attr
    || (rule.attr == CODE_WEAKNESSES.attr && kind in NATIVE_WEAKNESS_KINDS)
  }

  ghost predicate IssueRule(rule: MergeRule<Issue, IssueKey>) {
    rule == CLOUD_MISCONFIGS || rule == APP_SURFACE_ISSUES || rule == CODE_WEAKNESSES
  }

  /** Each descriptive field of a merged record that is kept by severity is that of its latest
      report that outranks all before it and sets the field. */
  lemma MergedDescriptions(rule: MergeRule<Issue, IssueKey>, items: seq<Issue>, i: nat, f: Described)
    requires IssueRule(rule) && i < |MergeAll(rule, Merged([], {}), items).target|
    requires BySeverity(rule, MergeAll(rule, Merged([], {}), items).target[i].kind)
    ensures
      var r := MergeAll(rule, Merged([], {}), items).target[i];
      FromLatestLead(Reports(rule, items, rule.key(r)), f, f.Of(r))
  {
    UpgradesKeepKeys();
    MergeIsFoldOfReports(rule, items);
    var r := MergeAll(rule, Merged([], {}), items).target[i];
    assert IsFold(rule, items, r);
    var reports := Reports(rule, items, rule.key(r));
    if rule == CODE_WEAKNESSES {
      forall j | 0 <= j < |reports| ensures reports[j].kind == r.kind { assert reports[j] in reports; }
      FoldedWeakness(reports);
      FoldedDescription(SEVERE_WEAKNESSES, reports, f);
    } else {
      FoldedDescription(rule, reports, f);
    }
  }

  lemma BeatenIsNoLead(reports: seq<Issue>, m: nat, k: nat)
    requires m < k < |reports| && !Outranks(reports[k], reports[m])
    ensures !Leads(reports, k)
  {}

  lemma StrongestLeadsLast(reports: seq<Issue>, m: nat)
    requires Strongest(reports, m)
    ensures Leads(reports, m) && forall k: nat :: k > m ==> !Leads(reports, k)
  {
    forall k: nat | m < k < |reports| ensures !Leads(reports, k) {
      BeatenIsNoLead(reports, m, k);
    }
  }

  /** The strongest report speaks alone in the merged record exactly when it sets every field that
      a report outranking all before itself sets. */
  lemma WinnerSpeaksAloneIff(rule: MergeRule<Issue, IssueKey>, items: seq<Issue>, i: nat, m: nat)
    requires IssueRule(rule) && i < |MergeAll(rule, Merged([], {}), items).target|
    requires BySeverity(rule, MergeAll(rule, Merged([], {}), items).target[i].kind)
    requires
      var r := MergeAll(rule, Merged([], {}), items).target[i];
      Strongest(Reports(rule, items, rule.key(r)), m)
    ensures
      var r := MergeAll(rule, Merged([], {}), items).target[i];
      var reports := Reports(rule, items, rule.key(r));
      (forall f: Described :: f.Of(r) == f.Of(reports[m])) <==>
        forall f: Described, j: nat :: SetByLead(reports, f, j) ==> f.Of(reports[m]).Some?
  {
    var r := MergeAll(rule, Merged([], {}), items).target[i];
    var reports := Reports(rule, items, rule.key(r));
    hide MergeAll, Reports, Outranks, BySeverity, IssueRule;
    StrongestLeadsLast(reports, m);
    forall f: Described
      ensures f.Of(r) == f.Of(reports[m]) <==> ((exists j: nat :: SetByLead(reports, f, j)) ==> f.Of(reports[m]).Some?)
    {
      MergedDescriptions(rule, items, i, f);
      FieldIsWinnersIff(reports, f, f.Of(r), m);
    }
  }

  lemma FieldIsWinnersIff(reports: seq<Issue>, f: Described, value: Option<string>, m: nat)
    requires FromLatestLead(reports, f, value) && m < |reports|
    requires Leads(reports, m) && forall k: nat :: k > m ==> !Leads(reports, k)
    ensures value == f.Of(reports[m]) <==> ((exists j: nat :: SetByLead(reports, f, j)) ==> f.Of(reports[m]).Some?)
  {
    hide Leads;
    if f.Of(reports[m]).Some? {
      assert SetByLead(reports, f, m);
      var j: nat :| SetByLead(reports, f, j) && f.Of(reports[j]) == value
        && forall k: nat :: k > j ==> !SetByLead(reports, f, k);
      assert j == m;
    }
  }

  const REPORT: Issue :=
    Issue("host_path_mount", "f", Some(1), None, "low", Score(0.8), None, Some("for_each"), None, None, Some("a"), None, None)

  /** So a context can stand beside a severity two reports removed from it. */
  lemma MixedReport()
    ensures
      var low := REPORT;
      var medium := REPORT.(severity := "medium", context := None, sourceAnalyzer := Some("b"));
      var high := REPORT.(severity := "high", context := None, sourceAnalyzer := Some("c"));
      MergeAll(CLOUD_MISCONFIGS, Merged([], {}), [low, medium, high]).target == [high.(context := Some("for_each"))]
  {
    var low := REPORT;
    var medium := REPORT.(severity := "medium", context := None, sourceAnalyzer := Some("b"));
    var high := REPORT.(severity := "high", context := None, sourceAnalyzer := Some("c"));
    var all := [low, medium, high];
    var none: Merged<Issue, IssueKey> := Merged([], {});
    assert all[..2][..1] == [low] && all[..1][..0] == [] && all[..2] == [low, medium];
    assert MergeAll(CLOUD_MISCONFIGS, none, [low]) == Merged([low], {CloudKey(low)});
    var two := MergeAll(CLOUD_MISCONFIGS, none, all[..2]);
    assert two == MergeOne(CLOUD_MISCONFIGS, MergeAll(CLOUD_MISCONFIGS, none, [low]), medium);
    assert two.target == [medium.(context := Some("for_each"))];
    assert MergeAll(CLOUD_MISCONFIGS, none, all) == MergeOne(CLOUD_MISCONFIGS, two, high);
  }

  // ---- issues, field by field ----

  ghost predicate SameCloud(a: Issue, b: Issue) {
    a.kind == b.kind && a.file == b.file && a.line == b.line && a.resource == b.resource && a.evidenceText == b.evidenceText
  }

  ghost predicate SameAppIssue(a: Issue, b: Issue) {
    a.kind == b.kind && a.file == b.file && a.line == b.line && a.evidenceText == b.evidenceText
  }

  /** Native kinds are told apart by their evidence too. */
  ghost predicate SameWeakness(a: Issue, b: Issue) {
    && a.kind == b.kind && a.file == b.file && a.line == b.line
    && (Native(a.kind) ==> a.evidenceText == b.evidenceText)
  }

  ghost predicate Native(kind: string) {
    || kind == "unbounded_copy" || kind == "format_string" || kind == "native_command_exec"
    || kind == "tainted_copy_length" || kind == "alloc_size_overflow"
  }

  ghost predicate SameIssue(rule: MergeRule<Issue, IssueKey>, a: Issue, b: Issue)
    requires IssueRule(rule)
  {
    if rule == CLOUD_MISCONFIGS then SameCloud(a, b)
    else if rule == APP_SURFACE_ISSUES then SameAppIssue(a, b)
    else SameWeakness(a, b)
  }

  lemma IssueKeyMeans(rule: MergeRule<Issue, IssueKey>, a: Issue, b: Issue)
    requires IssueRule(rule)
    ensures rule.key(a) == rule.key(b) <==> SameIssue(rule, a, b)
  {
    assert CLOUD_MISCONFIGS.attr != APP_SURFACE_ISSUES.attr && APP_SURFACE_ISSUES.attr != CODE_WEAKNESSES.attr;
    assert CLOUD_MISCONFIGS.attr != CODE_WEAKNESSES.attr;
  }

  /** High before medium before low before anything else, then by confidence: a number as it is, low
      0.3, high 0.9, and anything else, none included, 0.6. */
  ghost predicate Stronger(a: Issue, b: Issue) {
    || SeverityLevel(a.severity) > SeverityLevel(b.severity)
    || (SeverityLevel(a.severity) == SeverityLevel(b.severity) && Trust(a.confidence) > Trust(b.confidence))
  }

  ghost function SeverityLevel(severity: string): int {
    if severity == "high" then 3 else if severity == "medium" then 2 else if severity == "low" then 1 else 0
  }

  ghost function Trust(c: Confidence): real {
    if c.Score? then c.value else if c == Level("low") then 0.3 else if c == Level("high") then 0.9 else 0.6
  }

  lemma OutranksMeans(a: Issue, b: Issue)
    ensures Outranks(a, b) <==> Stronger(a, b)
  {}

  /** `m` is the first place of a strongest report of the issue, and the record's rank and traced
      input are those of it. */
  ghost predicate StrongestAt(rule: MergeRule<Issue, IssueKey>, items: seq<Issue>, r: Issue, m: nat)
    requires IssueRule(rule)
  {
    && m < |items| && SameIssue(rule, items[m], r)
    && (forall k :: 0 <= k < |items| && SameIssue(rule, items[k], r) ==> !Stronger(items[k], items[m]))
    && (forall k :: 0 <= k < m && SameIssue(rule, items[k], r) ==> Stronger(items[m], items[k]))
    && r.severity == items[m].severity && r.confidence == items[m].confidence
    && r.sourceKind == items[m].sourceKind && r.sourceLine == items[m].sourceLine
  }

  /** One record for each issue; of those kept by severity, with the rank of the strongest report. */
  ghost predicate IssuesMerged(rule: MergeRule<Issue, IssueKey>, items: seq<Issue>, target: seq<Issue>)
    requires IssueRule(rule)
  {
    && (forall v :: v in items ==> exists r :: r in target && SameIssue(rule, v, r))
    && (forall i, j :: 0 <= i < j < |target| ==> !SameIssue(rule, target[i], target[j]))
    && (forall r :: r in target && BySeverity(rule, r.kind) ==> exists m: nat :: StrongestAt(rule, items, r, m))
  }

  lemma MergedIssueFields(rule: MergeRule<Issue, IssueKey>, items: seq<Issue>)
    requires IssueRule(rule)
    ensures IssuesMerged(rule, items, MergeAll(rule, Merged([], {}), items).target)
  {
    var target := MergeAll(rule, Merged([], {}), items).target;
    UpgradesKeepKeys();
    MergedByKey(rule, items);
    hide MergeAll, SameIssue, BySeverity;
    forall v | v in items ensures exists r :: r in target && SameIssue(rule, v, r) {
      var r :| r in target && rule.key(r) == rule.key(v);
      IssueKeyMeans(rule, v, r);
    }
    forall i, j | 0 <= i < j < |target| ensures !SameIssue(rule, target[i], target[j]) {
      assert rule.key(target[i]) != rule.key(target[j]);
      IssueKeyMeans(rule, target[i], target[j]);
    }
    forall r | r in target && BySeverity(rule, r.kind) ensures exists m: nat :: StrongestAt(rule, items, r, m) {
      var i: nat :| i < |target| && target[i] == r;
      SevereRecord(rule, items, i);
      StrongestPlace(rule, items, r);
    }
  }

  lemma SevereRecord(rule: MergeRule<Issue, IssueKey>, items: seq<Issue>, i: nat)
    requires IssueRule(rule) && i < |MergeAll(rule, Merged([], {}), items).target|
    requires BySeverity(rule, MergeAll(rule, Merged([], {}), items).target[i].kind)
    ensures
      var r := MergeAll(rule, Merged([], {}), items).target[i];
      SevereOf(Reports(rule, items, rule.key(r)), r)
  {
    hide MergeAll, SevereOf, Reports;
    if rule == CODE_WEAKNESSES { MergedWeaknesses(items, i); } else { MergedIssues(rule, items, i); }
  }

  lemma StrongestPlace(rule: MergeRule<Issue, IssueKey>, items: seq<Issue>, r: Issue)
    requires IssueRule(rule) && SevereOf(Reports(rule, items, rule.key(r)), r)
    ensures exists m: nat :: StrongestAt(rule, items, r, m)
  {
    var reports, places := Reports(rule, items, rule.key(r)), Places(rule, items, rule.key(r));
    ReportsStand(rule, items, rule.key(r));
    IssuesStandAt(rule, items, r);
    var j: nat :| Strongest(reports, j) && SpeaksFor(r, reports[j]);
    hide Places, Reports, Outranks, Stronger, SameIssue, IssueRule, SevereOf;
    StrongestDecides(rule, items, r, reports, places, j);
  }

  lemma IssuesStandAt(rule: MergeRule<Issue, IssueKey>, items: seq<Issue>, r: Issue)
    requires IssueRule(rule)
    ensures forall k: nat :: k < |items| && SameIssue(rule, items[k], r) ==> k in Places(rule, items, rule.key(r))
    ensures forall v :: v in Reports(rule, items, rule.key(r)) ==> SameIssue(rule, v, r)
  {
    hide Places, Reports, SameIssue, IssueRule;
    forall k: nat | k < |items| && SameIssue(rule, items[k], r) ensures k in Places(rule, items, rule.key(r)) {
      IssueKeyMeans(rule, items[k], r);
      AllPlaces(rule, items, rule.key(r), k);
    }
    forall v | v in Reports(rule, items, rule.key(r)) ensures SameIssue(rule, v, r) { IssueKeyMeans(rule, v, r); }
  }

  lemma StrongestDecides(rule: MergeRule<Issue, IssueKey>, items: seq<Issue>, r: Issue,
                         reports: seq<Issue>, places: seq<nat>, j: nat)
    requires IssueRule(rule) && StandIn(items, places, reports) && Strongest(reports, j) && SpeaksFor(r, reports[j])
    requires forall k: nat :: k < |items| && SameIssue(rule, items[k], r) ==> k in places
    requires forall v :: v in reports ==> SameIssue(rule, v, r)
    ensures exists m: nat :: StrongestAt(rule, items, r, m)
  {
    hide Outranks, Stronger, SameIssue, IssueRule;
    var m := places[j];
    assert reports[j] in reports && items[m] == reports[j];
    forall k: nat | k < |items| && SameIssue(rule, items[k], r)
      ensures !Stronger(items[k], items[m]) && (k < m ==> Stronger(items[m], items[k]))
    {
      StrongestStands(items, reports, places, j, k);
    }
    assert StrongestAt(rule, items, r, m);
  }

  lemma StrongestStands(items: seq<Issue>, reports: seq<Issue>, places: seq<nat>, j: nat, k: nat)
    requires StandIn(items, places, reports) && Strongest(reports, j) && k in places
    ensures k < |items| && !Stronger(items[k], reports[j]) && (k < places[j] ==> Stronger(reports[j], items[k]))
  {
    hide Outranks, Stronger;
    var t :| 0 <= t < |places| && places[t] == k;
    OutranksMeans(reports[t], reports[j]);
    OutranksMeans(reports[j], reports[t]);
    if t > j { assert places[j] < places[t]; }
  }
}
