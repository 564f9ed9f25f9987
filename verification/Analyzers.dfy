/** Merging the results of all analyzers (src/attackmap/analyzers.py). */
module Analyzers {
  import opened Lists
  import opened Wrappers
  import opened Merge
  import opened MergeSchema
  import opened RouteTwins

  lemma DistinctParts<T>(all: seq<T>, a: seq<T>, b: seq<T>)
    requires Distinct(all) && a + b <= all
    ensures Distinct(b) && Apart(a, b)
  {
    assert forall i :: 0 <= i < |a| ==> (a + b)[i] == a[i];
    assert forall i :: 0 <= i < |b| ==> (a + b)[|a| + i] == b[i];
    assert forall i :: 0 <= i < |a + b| ==> all[i] == (a + b)[i];
  }

  // ---- provenance ----

  /** Where a record says which analyzer reported it. */
  datatype Provenance<!V(!new)> = Provenance(of: V -> Option<string>, with: (V, string) -> V) {
    ghost predicate Lawful() {
      forall v, a :: of(with(v, a)) == Some(a)
    }
  }

  /** A record that names no analyzer is given one. */
  function Stamped<V(!new)>(p: Provenance<V>, v: V, analyzer: string): V {
    if p.of(v).None? then p.with(v, analyzer) else v
  }

  lemma StampedIsNamed<V(!new)>(p: Provenance<V>, v: V, analyzer: string)
    requires p.Lawful()
    ensures p.of(Stamped(p, v, analyzer)) == if p.of(v).None? then Some(analyzer) else p.of(v)
    ensures forall other :: Stamped(p, Stamped(p, v, analyzer), other) == Stamped(p, v, analyzer)
  {}

  function AllStamped<V(!new)>(p: Provenance<V>, records: seq<V>, analyzer: string): (r: seq<V>)
    ensures |r| == |records| && forall i :: 0 <= i < |r| ==> r[i] == Stamped(p, records[i], analyzer)
  {
    seq(|records|, i requires 0 <= i < |records| => Stamped(p, records[i], analyzer))
  }

  /** Names the analyzer on every record of every list field that names none, a record listed twice included. */
  method StampProvenance<V(!new)>(p: Provenance<V>, fields: seq<seq<Cell<V>>>, analyzer: string)
    requires p.Lawful()
    modifies Flatten(fields)
    ensures Values(Flatten(fields)) == AllStamped(p, old(Values(Flatten(fields))), analyzer)
  {
    ghost var all := Flatten(fields);
    ghost var was := old(Values(Flatten(fields)));
    ghost var n := 0;
    for r := 0 to |fields|
      invariant n == |Flatten(fields[..r])| <= |all|
      invariant StampedUpTo(p, all, was, analyzer, n)
    {
      FlattenNext(fields, r);
      FlattenPrefix(fields, r + 1);
      for i := 0 to |fields[r]|
        invariant n == |Flatten(fields[..r])| + i
        invariant StampedUpTo(p, all, was, analyzer, n)
      {
        var item := fields[r][i];
        assert all[n] == item by { assert Flatten(fields[..r + 1])[n] == item; }
        StampOne(p, item, analyzer, all, was, n);
        n := n + 1;
      }
    }
    assert fields[..|fields|] == fields;
  }

  /** The first `n` records are stamped, and each of the others is, or is as it was. */
  ghost predicate StampedUpTo<V(!new)>(p: Provenance<V>, all: seq<Cell<V>>, was: seq<V>, analyzer: string, n: nat)
    requires n <= |all| == |was|
    reads all
  {
    && (forall j :: 0 <= j < n ==> all[j].v == Stamped(p, was[j], analyzer))
    && (forall j :: n <= j < |all| ==> all[j].v == was[j] || all[j].v == Stamped(p, was[j], analyzer))
    && (forall j, k :: 0 <= j < k < |all| && all[j] == all[k] ==> was[j] == was[k])
  }

  method StampOne<V(!new)>(p: Provenance<V>, item: Cell<V>, analyzer: string,
                           ghost all: seq<Cell<V>>, ghost was: seq<V>, ghost n: nat)
    requires p.Lawful() && n < |all| == |was| && item == all[n] && StampedUpTo(p, all, was, analyzer, n)
    modifies item
    ensures StampedUpTo(p, all, was, analyzer, n + 1)
  {
    StampedIsNamed(p, was[n], analyzer);
    hide Provenance.Lawful;
    if p.of(item.v).None? { item.v := p.with(item.v, analyzer); }
  }

  const ISSUE_PROVENANCE: Provenance<Issue> := Provenance((i: Issue) => i.sourceAnalyzer, (i: Issue, a: string) => i.(sourceAnalyzer := Some(a)))
  const ROUTE_PROVENANCE: Provenance<Route> := Provenance((r: Route) => r.sourceAnalyzer, (r: Route, a: string) => r.(sourceAnalyzer := Some(a)))

  lemma ProvenancesAreLawful()
    ensures ISSUE_PROVENANCE.Lawful() && ROUTE_PROVENANCE.Lawful()
  {}

  /** Issues stamped with the analyzers that reported them: the merged record, kept by severity,
      names the analyzer of its strongest report. */
  lemma MergedProvenance(rule: MergeRule<Issue, IssueKey>, reported: seq<(Issue, string)>, items: seq<Issue>, i: nat, m: nat)
    requires |items| == |reported|
    requires forall k :: 0 <= k < |items| ==> items[k] == Stamped(ISSUE_PROVENANCE, reported[k].0, reported[k].1)
    requires IssueRule(rule) && i < |MergeAll(rule, Merged([], {}), items).target|
    requires BySeverity(rule, MergeAll(rule, Merged([], {}), items).target[i].kind)
    requires
      var r := MergeAll(rule, Merged([], {}), items).target[i];
      Strongest(Reports(rule, items, rule.key(r)), m)
    ensures
      var r := MergeAll(rule, Merged([], {}), items).target[i];
      r.sourceAnalyzer.Some? && r.sourceAnalyzer == Reports(rule, items, rule.key(r))[m].sourceAnalyzer
  {
    var r := MergeAll(rule, Merged([], {}), items).target[i];
    var reports := Reports(rule, items, rule.key(r));
    hide MergeAll, Reports, BySeverity, IssueRule, Outranks, Stamped, FromLatestLead, Leads;
    AllNamed(reported, items);
    StrongestIsReport(reports, m);
    assert reports[m] in reports && reports[m] in items;
    hide Strongest;
    MergedDescriptions(rule, items, i, SourceAnalyzer);
    StrongestLeadsLast(reports, m);
    FieldIsWinnersIff(reports, SourceAnalyzer, r.sourceAnalyzer, m);
  }

  lemma AllNamed(reported: seq<(Issue, string)>, items: seq<Issue>)
    requires |items| == |reported|
    requires forall k :: 0 <= k < |items| ==> items[k] == Stamped(ISSUE_PROVENANCE, reported[k].0, reported[k].1)
    ensures forall v :: v in items ==> v.sourceAnalyzer.Some?
  {
    ProvenancesAreLawful();
    forall v | v in items ensures v.sourceAnalyzer.Some? {
      var k :| 0 <= k < |items| && items[k] == v;
      StampedIsNamed(ISSUE_PROVENANCE, reported[k].0, reported[k].1);
      assert ISSUE_PROVENANCE.of(v) == v.sourceAnalyzer;
    }
  }

  // ---- the merge of all results ----

  lemma SameValues<V>(cells: seq<Cell<V>>, all: seq<Cell<V>>, n: nat, was: seq<V>)
    requires |was| == |all| && n + |cells| <= |all| && all[n..n + |cells|] == cells
    requires forall k :: n <= k < |all| ==> all[k].v == was[k]
    ensures Values(cells) == was[n..n + |cells|]
  {
    forall i | 0 <= i < |cells| ensures cells[i].v == was[n..n + |cells|][i] {
      assert all[n..n + |cells|][i] == all[n + i];
    }
  }

  lemma LaterAreOthers<T>(all: seq<T>, now: seq<T>)
    requires Distinct(all) && now <= all
    ensures forall k :: |now| <= k < |all| ==> all[k] !in now
  {
    assert forall i :: 0 <= i < |now| ==> all[i] == now[i];
  }

  lemma ApartFrom<T>(target: seq<T>, done: seq<T>, items: seq<T>)
    requires Apart(done, items) && forall c :: c in target ==> c in done
    ensures Apart(target, items)
  {
    forall i, j | 0 <= i < |target| && 0 <= j < |items| ensures target[i] != items[j] {
      assert target[i] in done;
    }
  }

  /** Merges one more list into a field that holds the merge of the lists before it. */
  method MergeNext<V(!new), K(!new, ==)>(
    rule: MergeRule<V, K>, field: Field<V, K>, list: seq<Cell<V>>,
    ghost all: seq<Cell<V>>, ghost done: seq<Cell<V>>, ghost was: seq<V>)
    requires rule.KeepsKeys() && Distinct(all) && done + list <= all && |was| == |all|
    requires Distinct(field.target) && forall c :: c in field.target ==> c in done
    requires Merged(Values(field.target), field.seen) == MergeAll(rule, Merged([], {}), was[..|done|])
    requires forall k :: |done| <= k < |all| ==> all[k].v == was[k]
    modifies field, done, list
    ensures Distinct(field.target) && forall c :: c in field.target ==> c in done + list
    ensures Merged(Values(field.target), field.seen) == MergeAll(rule, Merged([], {}), was[..|done + list|])
    ensures forall k :: |done + list| <= k < |all| ==> all[k].v == was[k]
  {
    hide Apart, Distinct, MergeAll;
    var n, m := |done|, |done + list|;
    DistinctParts(all, done, list);
    ApartFrom(field.target, done, list);
    LaterAreOthers(all, done + list);
    assert all[n..m] == list by { assert all[..m] == done + list; }
    SameValues(list, all, n, was);
    assert was[..n] + was[n..m] == was[..m];
    MergeInTwoGoes(rule, Merged([], {}), was[..n], was[n..m]);
    assert forall j :: 0 <= j < |field.target| ==> field.target[j] in done;
    field.MergeInto(list, rule);
  }

  /** One list field of the merged result: every analyzer's list of it, merged in turn. */
  method MergeField<V(!new), K(!new, ==)>(rule: MergeRule<V, K>, lists: seq<seq<Cell<V>>>) returns (field: Field<V, K>)
    requires rule.KeepsKeys() && Distinct(Flatten(lists))
    modifies Flatten(lists)
    ensures fresh(field)
    ensures Merged(Values(field.target), field.seen) ==
            MergeAll(rule, Merged([], {}), old(Values(Flatten(lists))))
    ensures IsMergeOf(rule, Merged(Values(field.target), field.seen), old(Values(Flatten(lists))))
    ensures forall c :: c in field.target ==> c in Flatten(lists)
  {
    hide IsMergeOf, MergeAll, Distinct;
    ghost var all := Flatten(lists);
    ghost var was := old(Values(all));
    field := new Field();
    assert MergeAll(rule, Merged([], {}), was[..0]) == Merged([], {}) by { MergeNothing(rule, was[..0]); }
    NoneIsDistinct(field.target);
    for r := 0 to |lists|
      invariant fresh(field) && Distinct(field.target)
      invariant Flatten(lists[..r]) <= all
      invariant forall c :: c in field.target ==> c in Flatten(lists[..r])
      invariant Merged(Values(field.target), field.seen) ==
                MergeAll(rule, Merged([], {}), was[..|Flatten(lists[..r])|])
      invariant forall k :: |Flatten(lists[..r])| <= k < |all| ==> all[k].v == was[k]
    {
      FlattenNext(lists, r);
      FlattenPrefix(lists, r);
      FlattenPrefix(lists, r + 1);
      ghost var done := Flatten(lists[..r]);
      assert forall j :: 0 <= j < |done| ==> done[j] == all[j];
      assert forall j :: 0 <= j < |lists[r]| ==> lists[r][j] == Flatten(lists[..r + 1])[|done| + j];
      assert forall j :: 0 <= j < |lists[r]| ==> lists[r][j] == all[|done| + j];
      MergeNext(rule, field, lists[r], all, Flatten(lists[..r]), was);
    }
    assert lists[..|lists|] == lists && was[..|was|] == was;
    MergeIsFoldOfReports(rule, was);
  }

  lemma MergeNothing<V(!new), K(!new)>(rule: MergeRule<V, K>, none: seq<V>)
    requires none == []
    ensures MergeAll(rule, Merged([], {}), none) == Merged([], {})
  {}

  lemma NoneIsDistinct<T>(none: seq<T>)
    requires none == []
    ensures Distinct(none)
  {}

  // ---- routes: a plugin's route replaces its built-in twin ----

  /** The lists whose flag is `flag`. */
  function Flagged<T>(lists: seq<seq<T>>, flags: seq<bool>, flag: bool): seq<seq<T>>
    requires |flags| == |lists|
  {
    if lists == [] then []
    else
      var k := |lists| - 1;
      Flagged(lists[..k], flags[..k], flag) + if flags[k] == flag then [lists[k]] else []
  }

  function Except<T(==)>(s: seq<T>, drop: set<T>): (r: seq<T>)
    ensures forall x :: x in r ==> x in s && x !in drop
    ensures forall x :: x in s && x !in drop ==> x in r
  {
    if s == [] then []
    else
      var k := |s| - 1;
      assert forall x :: x in s ==> x in s[..k] || x == s[k];
      if s[k] in drop then Except(s[..k], drop) else Except(s[..k], drop) + [s[k]]
  }

  /** The places are those of the elements not in `drop`. */
  ghost predicate Outside<T(!new)>(s: seq<T>, drop: set<T>, places: seq<nat>) {
    forall p: nat :: p in places <==> p < |s| && s[p] !in drop
  }

  /** `rest` is what stands at those places. */
  ghost predicate IsRest<T(!new)>(s: seq<T>, drop: set<T>, places: seq<nat>, rest: seq<T>) {
    StandIn(s, places, rest) && Outside(s, drop, places)
  }

  lemma NothingRests<T(!new)>(s: seq<T>, drop: set<T>)
    requires s == []
    ensures IsRest(s, drop, [], [])
  {}

  lemma RestNext<T(!new)>(s: seq<T>, x: T, drop: set<T>, places: seq<nat>, rest: seq<T>)
    requires IsRest(s, drop, places, rest)
    ensures x in drop ==> IsRest(s + [x], drop, places, rest)
    ensures x !in drop ==> IsRest(s + [x], drop, places + [|s|], rest + [x])
  {
    StandInPush(s, x, places, rest);
    hide StandIn;
  }

  /** What is left is what is not dropped, in the order it stands in. */
  lemma {:induction false} ExceptIsRest<T(!new)>(s: seq<T>, drop: set<T>) returns (places: seq<nat>)
    ensures IsRest(s, drop, places, Except(s, drop))
  {
    hide IsRest;
    if s == [] {
      NothingRests(s, drop);
      places := [];
    } else {
      var k := |s| - 1;
      places := ExceptIsRest(s[..k], drop);
      RestNext(s[..k], s[k], drop, places, Except(s[..k], drop));
      assert s[..k] + [s[k]] == s;
      if s[k] !in drop { places := places + [k]; }
    }
  }

  lemma {:induction false} ExceptOfSum<T>(a: seq<T>, b: seq<T>, drop: set<T>)
    ensures Except(a + b, drop) == Except(a, drop) + Except(b, drop)
  {
    if b == [] {
      assert a + b == a;
    } else {
      assert (a + b)[..|a + b| - 1] == a + b[..|b| - 1];
      ExceptOfSum(a, b[..|b| - 1], drop);
    }
  }

  lemma {:induction false} ExceptIsDistinct<T>(s: seq<T>, drop: set<T>)
    requires Distinct(s)
    ensures Distinct(Except(s, drop))
  {
    if s != [] {
      var k := |s| - 1;
      ExceptIsDistinct(s[..k], drop);
      LaterAreOthers(s, s[..k]);
    }
  }

  /** The flagged lists are those whose flag is set so, in their order. */
  lemma {:induction false} FlaggedAre<T>(lists: seq<seq<T>>, flags: seq<bool>, flag: bool) returns (places: seq<nat>)
    requires |flags| == |lists|
    ensures StandIn(lists, places, Flagged(lists, flags, flag)) && SetTo(flags, flag, places)
  {
    if lists == [] {
      places := [];
    } else {
      hide StandIn, SetTo;
      var k := |lists| - 1;
      var front := FlaggedAre(lists[..k], flags[..k], flag);
      places := front + if flags[k] == flag then [k] else [];
      SetToNext(flags, flag, front);
      StandInPush(lists[..k], lists[k], front, Flagged(lists[..k], flags[..k], flag));
      assert lists[..k] + [lists[k]] == lists;
      if flags[k] != flag { assert places == front && Flagged(lists, flags, flag) == Flagged(lists[..k], flags[..k], flag); }
    }
  }

  /** The places are those of the flags that are set so. */
  ghost predicate SetTo(flags: seq<bool>, flag: bool, places: seq<nat>) {
    forall p: nat :: p in places <==> p < |flags| && flags[p] == flag
  }

  lemma SetToNext(flags: seq<bool>, flag: bool, places: seq<nat>)
    requires flags != [] && SetTo(flags[..|flags| - 1], flag, places)
    ensures SetTo(flags, flag, places + if flags[|flags| - 1] == flag then [|flags| - 1] else [])
  {}

  /** What is in a flagged list. */
  lemma {:induction false} InFlagged<T>(lists: seq<seq<T>>, flags: seq<bool>, flag: bool, x: T)
    requires |flags| == |lists|
    ensures x in Flatten(Flagged(lists, flags, flag)) <==>
      exists i :: 0 <= i < |lists| && flags[i] == flag && x in lists[i]
  {
    if lists != [] {
      var k := |lists| - 1;
      FlaggedStep(lists, flags, flag);
      InFlagged(lists[..k], flags[..k], flag, x);
      hide Flatten, Flagged;
      assert forall i :: 0 <= i < k ==> lists[..k][i] == lists[i] && flags[..k][i] == flags[i];
      if i :| 0 <= i < |lists| && flags[i] == flag && x in lists[i] {
        if i < k { assert flags[..k][i] == flag && x in lists[..k][i]; }
      }
    }
  }

  lemma FlaggedStep<T>(lists: seq<seq<T>>, flags: seq<bool>, flag: bool)
    requires |flags| == |lists| && lists != []
    ensures
      var k := |lists| - 1;
      Flatten(Flagged(lists, flags, flag)) ==
        Flatten(Flagged(lists[..k], flags[..k], flag)) + if flags[k] == flag then lists[k] else []
  {
    var k := |lists| - 1;
    var rest := Flagged(lists[..k], flags[..k], flag);
    assert (rest + [lists[k]])[..|rest|] == rest;
    assert rest + [] == rest;
  }

  lemma {:induction false} FlaggedWithin<T>(lists: seq<seq<T>>, flags: seq<bool>, flag: bool)
    requires |flags| == |lists|
    ensures forall x :: x in Flatten(Flagged(lists, flags, flag)) ==> x in Flatten(lists)
  {
    if lists != [] {
      var k := |lists| - 1;
      FlaggedWithin(lists[..k], flags[..k], flag);
      FlaggedStep(lists, flags, flag);
    }
  }

  /** No object is in both a built-in and a plugin list. */
  lemma {:induction false} FlagsPart<T>(lists: seq<seq<T>>, flags: seq<bool>, x: T)
    requires |flags| == |lists| && Distinct(Flatten(lists))
    requires x in Flatten(Flagged(lists, flags, true))
    ensures x !in Flatten(Flagged(lists, flags, false))
  {
    var k := |lists| - 1;
    var before, last := Flatten(lists[..k]), lists[k];
    DistinctParts(Flatten(lists), before, last);
    assert Distinct(before) by { assert forall i :: 0 <= i < |before| ==> Flatten(lists)[i] == before[i]; }
    FlaggedWithin(lists[..k], flags[..k], true);
    FlaggedWithin(lists[..k], flags[..k], false);
    FlaggedStep(lists, flags, true);
    FlaggedStep(lists, flags, false);
    if x in Flatten(Flagged(lists[..k], flags[..k], true)) {
      FlagsPart(lists[..k], flags[..k], x);
    }
  }

  /** The built-in routes some plugin route replaces. */
  ghost function Dropped(n: PathRules, lists: seq<seq<Cell<Route>>>, builtin: seq<bool>): set<Cell<Route>>
    requires |builtin| == |lists|
    reads Flatten(lists)
  {
    FlaggedWithin(lists, builtin, true);
    FlaggedWithin(lists, builtin, false);
    var builtins, plugins := Flatten(Flagged(lists, builtin, true)), Flatten(Flagged(lists, builtin, false));
    assert forall j :: 0 <= j < |builtins| ==> builtins[j] in Flatten(lists);
    assert forall j :: 0 <= j < |plugins| ==> plugins[j] in Flatten(lists);
    set c | c in builtins && Superseded(n, c.v, Values(builtins), Values(plugins))
  }

  // ---- the order of the results ----

  function Zipped<T>(lists: seq<seq<T>>, flags: seq<bool>): (r: seq<(seq<T>, bool)>)
    requires |flags| == |lists|
    ensures |r| == |lists| && forall i :: 0 <= i < |r| ==> r[i] == (lists[i], flags[i])
  {
    seq(|lists|, i requires 0 <= i < |lists| => (lists[i], flags[i]))
  }

  /** All elements of the lists whose flag is `flag`. */
  ghost function Bag<T>(pairs: seq<(seq<T>, bool)>, flag: bool): multiset<T> {
    if pairs == [] then multiset{} else Bag(pairs[..|pairs| - 1], flag) + BagOf(pairs[|pairs| - 1], flag)
  }

  ghost function BagOf<T>(pair: (seq<T>, bool), flag: bool): multiset<T> {
    if pair.1 == flag then multiset(pair.0) else multiset{}
  }

  lemma {:induction false} BagOfSum<T>(a: seq<(seq<T>, bool)>, b: seq<(seq<T>, bool)>, flag: bool)
    ensures Bag(a + b, flag) == Bag(a, flag) + Bag(b, flag)
  {
    if b == [] {
      assert a + b == a;
    } else {
      assert (a + b)[..|a + b| - 1] == a + b[..|b| - 1];
      BagOfSum(a, b[..|b| - 1], flag);
    }
  }

  lemma BagWithout<T>(s: seq<(seq<T>, bool)>, j: nat, flag: bool)
    requires j < |s|
    ensures Bag(s, flag) == Bag(s[..j] + s[j + 1..], flag) + BagOf(s[j], flag)
  {
    assert s == s[..j + 1] + s[j + 1..];
    BagOfSum(s[..j], s[j + 1..], flag);
    BagOfSum(s[..j + 1], s[j + 1..], flag);
    hide BagOf;
    assert s[..j + 1][..j] == s[..j];
  }

  lemma {:induction false} BagIsOrderFree<T>(a: seq<(seq<T>, bool)>, b: seq<(seq<T>, bool)>, flag: bool)
    requires multiset(a) == multiset(b)
    ensures Bag(a, flag) == Bag(b, flag)
  {
    if a == [] {
      NoneIn(b);
    } else {
      hide BagOf;
      var j := LastIn(a, b);
      BagWithout(b, j, flag);
      BagIsOrderFree(a[..|a| - 1], b[..j] + b[j + 1..], flag);
    }
  }

  lemma {:induction false} FlattenIsBag<T>(lists: seq<seq<T>>, flags: seq<bool>, flag: bool)
    requires |flags| == |lists|
    ensures multiset(Flatten(Flagged(lists, flags, flag))) == Bag(Zipped(lists, flags), flag)
  {
    if lists != [] {
      var k := |lists| - 1;
      FlattenIsBag(lists[..k], flags[..k], flag);
      FlaggedStep(lists, flags, flag);
      assert Zipped(lists, flags)[..k] == Zipped(lists[..k], flags[..k]);
    }
  }

  lemma {:induction false} ValuesAreOrderFree<V>(a: seq<Cell<V>>, b: seq<Cell<V>>)
    requires multiset(a) == multiset(b)
    ensures multiset(Values(a)) == multiset(Values(b))
  {
    if a == [] {
      NoneIn(b);
    } else {
      var k := |a| - 1;
      var j := LastIn(a, b);
      assert a[..k] + a[k + 1..] == a[..k];
      ValuesAreOrderFree(a[..k], b[..j] + b[j + 1..]);
      ValuesWithout(a, k);
      ValuesWithout(b, j);
    }
  }

  lemma ValuesWithout<V>(s: seq<Cell<V>>, j: nat)
    requires j < |s|
    ensures multiset(Values(s)) == multiset(Values(s[..j] + s[j + 1..])) + multiset{s[j].v}
  {
    var values := Values(s);
    Without(values, j);
    assert values[..j] + values[j + 1..] == Values(s[..j] + s[j + 1..]);
    assert values[j] in multiset(values);
  }

  /** Whatever order the analyzers ran in, the same built-in routes are dropped. */
  lemma DroppedIsOrderFree(n: PathRules, lists: seq<seq<Cell<Route>>>, builtin: seq<bool>,
                           lists': seq<seq<Cell<Route>>>, builtin': seq<bool>)
    requires |builtin| == |lists| && |builtin'| == |lists'|
    requires multiset(Zipped(lists, builtin)) == multiset(Zipped(lists', builtin'))
    ensures Dropped(n, lists, builtin) == Dropped(n, lists', builtin')
  {
    DroppedWithin(n, lists, builtin, lists', builtin');
    DroppedWithin(n, lists', builtin', lists, builtin);
  }

  lemma DroppedWithin(n: PathRules, lists: seq<seq<Cell<Route>>>, builtin: seq<bool>,
                      lists': seq<seq<Cell<Route>>>, builtin': seq<bool>)
    requires |builtin| == |lists| && |builtin'| == |lists'|
    requires multiset(Zipped(lists, builtin)) == multiset(Zipped(lists', builtin'))
    ensures Dropped(n, lists, builtin) <= Dropped(n, lists', builtin')
  {
    hide Superseded, Flatten, Flagged;
    SameFlagged(lists, builtin, lists', builtin', true);
    SameFlagged(lists, builtin, lists', builtin', false);
    var bs, ps := Flatten(Flagged(lists, builtin, true)), Flatten(Flagged(lists, builtin, false));
    var bs', ps' := Flatten(Flagged(lists', builtin', true)), Flatten(Flagged(lists', builtin', false));
    ValuesAreOrderFree(bs, bs');
    ValuesAreOrderFree(ps, ps');
    forall c | c in Dropped(n, lists, builtin) ensures c in Dropped(n, lists', builtin') {
      assert c in bs && Superseded(n, c.v, Values(bs), Values(ps));
      assert c in multiset(bs) && c in multiset(bs');
      SupersededIsOrderFree(n, c.v, Values(bs), Values(ps), Values(bs'), Values(ps'));
    }
  }

  lemma SameFlagged<T>(lists: seq<seq<T>>, flags: seq<bool>, lists': seq<seq<T>>, flags': seq<bool>, flag: bool)
    requires |flags| == |lists| && |flags'| == |lists'|
    requires multiset(Zipped(lists, flags)) == multiset(Zipped(lists', flags'))
    ensures multiset(Flatten(Flagged(lists, flags, flag))) == multiset(Flatten(Flagged(lists', flags', flag)))
  {
    FlattenIsBag(lists, flags, flag);
    FlattenIsBag(lists', flags', flag);
    BagIsOrderFree(Zipped(lists, flags), Zipped(lists', flags'), flag);
  }

  /** Only routes of built-in results are dropped, and only for a route of a plugin result on the same
      line whose path ends with theirs. */
  lemma DroppedAreTwins(n: PathRules, lists: seq<seq<Cell<Route>>>, builtin: seq<bool>, c: Cell<Route>)
    returns (i: nat, j: nat, p: Cell<Route>)
    requires |builtin| == |lists| && c in Dropped(n, lists, builtin)
    ensures i < |lists| && builtin[i] && c in lists[i]
    ensures j < |lists| && !builtin[j] && p in lists[j]
    ensures c.v.line.Some? && c.v.line == p.v.line && c.v.file == p.v.file
    ensures n.upper(c.v.verb) == n.upper(p.v.verb) || n.upper(c.v.verb) == "ANY"
    ensures var a, b := n.segments(c.v.path), n.segments(p.v.path);
      |a| <= |b| && |a| <= 32 && forall k :: 0 <= k < |a| ==> a[k] == b[|b| - |a| + k]
  {
    hide Flatten, Flagged;
    var bs, ps := Flatten(Flagged(lists, builtin, true)), Flatten(Flagged(lists, builtin, false));
    assert c in bs && Superseded(n, c.v, Values(bs), Values(ps));
    hide Dropped;
    InFlagged(lists, builtin, true, c);
    i :| 0 <= i < |lists| && builtin[i] && c in lists[i];
    p := TwinOf(n, c.v, bs, ps);
    InFlagged(lists, builtin, false, p);
    j :| 0 <= j < |lists| && !builtin[j] && p in lists[j];
  }

  lemma TwinOf(n: PathRules, b: Route, bs: seq<Cell<Route>>, ps: seq<Cell<Route>>) returns (p: Cell<Route>)
    requires Superseded(n, b, Values(bs), Values(ps))
    ensures p in ps && b.line.Some? && b.line == p.v.line && b.file == p.v.file
    ensures n.upper(b.verb) == n.upper(p.v.verb) || n.upper(b.verb) == "ANY"
    ensures var x, y := n.segments(b.path), n.segments(p.v.path);
      |x| <= |y| && |x| <= 32 && forall k :: 0 <= k < |x| ==> x[k] == y[|y| - |x| + k]
  {
    hide CountAt, Joins;
    var place := PlaceOf(b).value;
    var v :| v in Values(ps) && Partner(n, b, v, place, CountAt(Values(ps), place) == 1 && CountAt(Values(bs), place) == 1);
    var k :| 0 <= k < |ps| && ps[k].v == v;
    p := ps[k];
    JoinedEnds(n, b, v);
  }

  lemma JoinedEnds(n: PathRules, b: Route, p: Route)
    requires Joins(n, b, p)
    ensures n.upper(b.verb) == n.upper(p.verb) || n.upper(b.verb) == "ANY"
    ensures var x, y := n.segments(b.path), n.segments(p.path);
      |x| <= |y| && |x| <= 32 && forall k :: 0 <= k < |x| ==> x[k] == y[|y| - |x| + k]
  {
    var x, y := n.segments(b.path), n.segments(p.path);
    assert forall k :: 0 <= k < |x| ==> y[|y| - |x|..][k] == x[k];
  }

  /** No route of a plugin result is ever dropped. */
  lemma PluginRoutesSurvive(n: PathRules, lists: seq<seq<Cell<Route>>>, builtin: seq<bool>, i: nat, c: Cell<Route>)
    requires |builtin| == |lists| && Distinct(Flatten(lists))
    requires i < |lists| && !builtin[i] && c in lists[i]
    ensures c in Except(Flatten(lists), Dropped(n, lists, builtin))
  {
    hide Flatten, Flagged;
    InFlagged(lists, builtin, false, c);
    FlaggedWithin(lists, builtin, false);
    if c in Flatten(Flagged(lists, builtin, true)) { FlagsPart(lists, builtin, c); }
  }

  lemma {:induction false} ExceptOfLists<T>(lists: seq<seq<T>>, drop: set<T>)
    ensures Flatten(seq(|lists|, i requires 0 <= i < |lists| => Except(lists[i], drop))) == Except(Flatten(lists), drop)
  {
    var kept := seq(|lists|, i requires 0 <= i < |lists| => Except(lists[i], drop));
    if lists != [] {
      var k := |lists| - 1;
      ExceptOfLists(lists[..k], drop);
      assert kept[..k] == seq(k, i requires 0 <= i < k => Except(lists[..k][i], drop));
      ExceptOfSum(Flatten(lists[..k]), lists[k], drop);
    }
  }

  method FindDropped(n: PathRules, lists: seq<seq<Cell<Route>>>, builtin: seq<bool>) returns (superseded: set<Cell<Route>>)
    requires |builtin| == |lists|
    ensures superseded == Dropped(n, lists, builtin)
  {
    hide Superseded;
    var builtins, plugins := Flatten(Flagged(lists, builtin, true)), Flatten(Flagged(lists, builtin, false));
    ghost var dropped := Dropped(n, lists, builtin);
    ghost var bs, ps := Values(builtins), Values(plugins);
    assert forall c :: c in dropped ==> c in builtins && Superseded(n, c.v, bs, ps);
    assert forall c :: c in builtins && Superseded(n, c.v, bs, ps) ==> c in dropped;
    superseded := SupersededBuiltinRoutes(n, builtins, plugins);
  }

  /** All routes, each built-in twin of a plugin route dropped, merged on their keys. `None` when the
      flags and the results differ in number. */
  method MergeRoutes(n: PathRules, lists: seq<seq<Cell<Route>>>, builtin: seq<bool>)
    returns (field: Option<Field<Route, (string, string, string)>>)
    requires Distinct(Flatten(lists))
    modifies Flatten(lists)
    ensures field.None? <==> |builtin| != |lists|
    ensures field.Some? ==>
      && fresh(field.value)
      && IsMergeOf(ROUTES, Merged(Values(field.value.target), field.value.seen),
                   old(Values(Except(Flatten(lists), Dropped(n, lists, builtin)))))
      && RoutesMerged(old(Values(Except(Flatten(lists), Dropped(n, lists, builtin)))), Values(field.value.target))
  {
    hide RoutesMerged, IsMergeOf, Superseded, Distinct, Dropped, Except, Flatten, Flagged, MergeAll;
    if |builtin| != |lists| { return None; }
    ghost var was := Values(Except(Flatten(lists), Dropped(n, lists, builtin)));
    ghost var dropped := Dropped(n, lists, builtin);
    var superseded := FindDropped(n, lists, builtin);
    assert superseded == dropped;
    var kept := seq(|lists|, i requires 0 <= i < |lists| => Except(lists[i], superseded));
    ExceptOfLists(lists, superseded);
    ExceptIsDistinct(Flatten(lists), superseded);
    UpgradesKeepKeys();
    ghost var items := Flatten(kept);
    assert forall j :: 0 <= j < |items| ==> items[j] in Flatten(lists);
    assert Values(items) == was;
    var merged := MergeField(ROUTES, kept);
    assert IsMergeOf(ROUTES, Merged(Values(merged.target), merged.seen), was);
    MergedRouteFields(was);
    field := Some(merged);
  }
}
