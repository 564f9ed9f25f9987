/** How analyzer outputs are combined: first-seen deduplication with an upgrade hook
    (src/attackmap/merge.py). */
module Merge {
  import opened Lists
  import opened Wrappers

  /** A record object: analyzers and the merged result share it, and upgrades change it in place. */
  class Cell<V> {
    var v: V
    constructor (v: V)
      ensures this.v == v
    {
      this.v := v;
    }
  }

  /** How one list field is merged: its attribute, the identity of a record, and what a
      duplicate may add to the record already kept. */
  datatype MergeRule<!V(!new), !K(!new)> = MergeRule(attr: string, key: V -> K, upgrade: Option<(V, V) -> V>) {
    /** An upgrade never changes what a record is identified by. */
    ghost predicate KeepsKeys() {
      upgrade.Some? ==> forall a, b :: key(a) == key(b) ==> key(upgrade.value(a, b)) == key(a)
    }
  }

  // ---- what merging computes, on values ----

  datatype Merged<V, K(==)> = Merged(target: seq<V>, seen: set<K>)

  /** Position of the last record with key `k`. */
  function LastAt<V(!new), K(!new, ==)>(rule: MergeRule<V, K>, target: seq<V>, k: K): (r: Option<nat>)
    ensures r.Some? ==> r.value < |target| && rule.key(target[r.value]) == k
    ensures forall i :: (if r.Some? then r.value + 1 else 0) <= i < |target| ==> rule.key(target[i]) != k
  {
    if target == [] then None
    else if rule.key(target[|target| - 1]) == k then Some(|target| - 1)
    else LastAt(rule, target[..|target| - 1], k)
  }

  function MergeOne<V(!new), K(!new, ==)>(rule: MergeRule<V, K>, m: Merged<V, K>, item: V): Merged<V, K> {
    var k := rule.key(item);
    if k in m.seen then
      var at := LastAt(rule, m.target, k);
      if rule.upgrade.Some? && at.Some?
      then m.(target := m.target[at.value := rule.upgrade.value(m.target[at.value], item)])
      else m
    else Merged(m.target + [item], m.seen + {k})
  }

  function MergeAll<V(!new), K(!new, ==)>(rule: MergeRule<V, K>, m: Merged<V, K>, items: seq<V>): Merged<V, K> {
    if items == [] then m
    else MergeOne(rule, MergeAll(rule, m, items[..|items| - 1]), items[|items| - 1])
  }

  lemma {:induction false} MergeInTwoGoes<V(!new), K(!new)>(rule: MergeRule<V, K>, m: Merged<V, K>, a: seq<V>, b: seq<V>)
    ensures MergeAll(rule, m, a + b) == MergeAll(rule, MergeAll(rule, m, a), b)
  {
    if b == [] {
      assert a + b == a;
    } else {
      MergeInTwoGoes(rule, m, a, b[..|b| - 1]);
      assert (a + b)[..|a + b| - 1] == a + b[..|b| - 1];
    }
  }

  // ---- what the merged list is, in one look ----

  function Keys<V(!new), K(!new)>(rule: MergeRule<V, K>, items: seq<V>): (r: seq<K>)
    ensures |r| == |items| && forall i :: 0 <= i < |r| ==> r[i] == rule.key(items[i])
  {
    seq(|items|, i requires 0 <= i < |items| => rule.key(items[i]))
  }

  /** All reports of one record, in the order they came. */
  ghost function Reports<V(!new), K(!new)>(rule: MergeRule<V, K>, items: seq<V>, k: K): (r: seq<V>)
    ensures forall v :: v in r ==> v in items && rule.key(v) == k
    ensures k in Keys(rule, items) <==> r != []
  {
    if items == [] then []
    else
      var n := |items| - 1;
      assert Keys(rule, items) == Keys(rule, items[..n]) + [rule.key(items[n])];
      Reports(rule, items[..n], k) + if rule.key(items[n]) == k then [items[n]] else []
  }

  /** The first report with every later one folded in. */
  ghost function Folded<V(!new), K(!new)>(rule: MergeRule<V, K>, reports: seq<V>): V
    requires reports != []
  {
    var n := |reports| - 1;
    if n == 0 then reports[0]
    else if rule.upgrade.Some? then rule.upgrade.value(Folded(rule, reports[..n]), reports[n])
    else Folded(rule, reports[..n])
  }

  ghost predicate IsFold<V(!new), K(!new)>(rule: MergeRule<V, K>, items: seq<V>, v: V) {
    var reports := Reports(rule, items, rule.key(v));
    reports != [] && v == Folded(rule, reports)
  }

  ghost predicate IsMergeOf<V(!new), K(!new)>(rule: MergeRule<V, K>, m: Merged<V, K>, items: seq<V>) {
    && Keys(rule, m.target) == Firsts(Keys(rule, items))
    && (forall k :: k in m.seen <==> k in Keys(rule, items))
    && (forall i :: 0 <= i < |m.target| ==> IsFold(rule, items, m.target[i]))
  }

  lemma ReportsOfOther<V(!new), K(!new)>(rule: MergeRule<V, K>, items: seq<V>, item: V, v: V)
    requires IsFold(rule, items, v) && rule.key(v) != rule.key(item)
    ensures IsFold(rule, items + [item], v)
  {
    assert (items + [item])[..|items|] == items;
    assert Reports(rule, items + [item], rule.key(v)) == Reports(rule, items, rule.key(v));
  }

  lemma FirstReport<V(!new), K(!new)>(rule: MergeRule<V, K>, items: seq<V>, item: V)
    requires rule.key(item) !in Keys(rule, items)
    ensures IsFold(rule, items + [item], item)
  {
    assert (items + [item])[..|items|] == items;
    assert Reports(rule, items, rule.key(item)) == [];
    assert Reports(rule, items + [item], rule.key(item)) == [item];
  }

  lemma KeysPush<V(!new), K(!new)>(rule: MergeRule<V, K>, items: seq<V>, item: V)
    ensures Keys(rule, items + [item]) == Keys(rule, items) + [rule.key(item)]
  {}

  lemma MergeNew<V(!new), K(!new)>(rule: MergeRule<V, K>, m: Merged<V, K>, items: seq<V>, item: V)
    requires IsMergeOf(rule, m, items) && rule.key(item) !in m.seen
    ensures IsMergeOf(rule, MergeOne(rule, m, item), items + [item])
  {
    hide IsFold, Firsts, Keys;
    var more := items + [item];
    var k := rule.key(item);
    KeysPush(rule, items, item);
    FirstsPush(Keys(rule, items), k);
    var target := m.target + [item];
    KeysPush(rule, m.target, item);
    forall i | 0 <= i < |target| ensures IsFold(rule, more, target[i]) {
      if i < |m.target| {
        assert Keys(rule, m.target)[i] in Keys(rule, items);
        ReportsOfOther(rule, items, item, m.target[i]);
      } else {
        FirstReport(rule, items, item);
      }
    }
  }

  /** The one kept record with a known key. */
  lemma KeptWithKey<V(!new), K(!new)>(rule: MergeRule<V, K>, target: seq<V>, k: K) returns (i: nat)
    requires Distinct(Keys(rule, target)) && k in Keys(rule, target)
    ensures i < |target| && LastAt(rule, target, k) == Some(i)
    ensures forall j :: 0 <= j < |target| && j != i ==> rule.key(target[j]) != k
  {
    i :| 0 <= i < |target| && Keys(rule, target)[i] == k;
    forall j | 0 <= j < |target| && j != i ensures rule.key(target[j]) != k {
      assert Keys(rule, target)[j] != Keys(rule, target)[i];
    }
  }

  lemma ReportsOfSame<V(!new), K(!new)>(rule: MergeRule<V, K>, items: seq<V>, item: V, v: V, w: V)
    requires IsFold(rule, items, v) && rule.key(v) == rule.key(item) == rule.key(w)
    requires w == if rule.upgrade.Some? then rule.upgrade.value(v, item) else v
    ensures IsFold(rule, items + [item], w)
  {
    assert (items + [item])[..|items|] == items;
    var r := Reports(rule, items, rule.key(item));
    assert (r + [item])[..|r|] == r;
  }

  lemma UpdateKeepsKeys<V(!new), K(!new)>(rule: MergeRule<V, K>, target: seq<V>, i: nat, w: V)
    requires i < |target| && rule.key(w) == rule.key(target[i])
    ensures Keys(rule, target[i := w]) == Keys(rule, target)
  {}

  lemma SeenTwice<V(!new), K(!new)>(rule: MergeRule<V, K>, items: seq<V>, item: V)
    requires rule.key(item) in Keys(rule, items)
    ensures Firsts(Keys(rule, items + [item])) == Firsts(Keys(rule, items))
    ensures forall k :: k in Keys(rule, items + [item]) <==> k in Keys(rule, items)
  {
    var keys := Keys(rule, items);
    assert Keys(rule, items + [item]) == keys + [rule.key(item)];
    assert (keys + [rule.key(item)])[..|keys|] == keys;
  }

  lemma MergeKnown<V(!new), K(!new)>(rule: MergeRule<V, K>, m: Merged<V, K>, items: seq<V>, item: V)
    requires rule.KeepsKeys() && IsMergeOf(rule, m, items) && rule.key(item) in m.seen
    ensures IsMergeOf(rule, MergeOne(rule, m, item), items + [item])
  {
    hide IsFold, LastAt, Firsts;
    var more := items + [item];
    var i := KeptWithKey(rule, m.target, rule.key(item));
    var w := if rule.upgrade.Some? then rule.upgrade.value(m.target[i], item) else m.target[i];
    var target := m.target[i := w];
    assert MergeOne(rule, m, item) == Merged(target, m.seen);
    UpdateKeepsKeys(rule, m.target, i, w);
    SeenTwice(rule, items, item);
    forall j | 0 <= j < |target| ensures IsFold(rule, more, target[j]) {
      if j != i {
        ReportsOfOther(rule, items, item, m.target[j]);
      } else {
        ReportsOfSame(rule, items, item, m.target[i], w);
      }
    }
  }

  /** Merging keeps one record per key, in order of first occurrence, each the fold of its reports. */
  lemma {:induction false} MergeIsFoldOfReports<V(!new), K(!new)>(rule: MergeRule<V, K>, items: seq<V>)
    requires rule.KeepsKeys()
    ensures IsMergeOf(rule, MergeAll(rule, Merged([], {}), items), items)
  {
    if items != [] {
      var n := |items| - 1;
      MergeIsFoldOfReports(rule, items[..n]);
      var m := MergeAll(rule, Merged([], {}), items[..n]);
      assert items == items[..n] + [items[n]];
      if rule.key(items[n]) in m.seen {
        MergeKnown(rule, m, items[..n], items[n]);
      } else {
        MergeNew(rule, m, items[..n], items[n]);
      }
    }
  }

  // ---- where the reports of a record stand ----

  /** The places of the reports with key `k`. */
  ghost function Places<V(!new), K(!new)>(rule: MergeRule<V, K>, items: seq<V>, k: K): seq<nat> {
    if items == [] then []
    else
      var n := |items| - 1;
      Places(rule, items[..n], k) + if rule.key(items[n]) == k then [n] else []
  }

  ghost predicate Ascends(places: seq<nat>) {
    forall i, j :: 0 <= i < j < |places| ==> places[i] < places[j]
  }

  /** The reports stand in the items at these places. */
  ghost predicate StandIn<V>(items: seq<V>, places: seq<nat>, reports: seq<V>) {
    && |places| == |reports| && Ascends(places)
    && forall j :: 0 <= j < |places| ==> places[j] < |items| && items[places[j]] == reports[j]
  }

  lemma StandInPush<V>(items: seq<V>, item: V, places: seq<nat>, reports: seq<V>)
    requires StandIn(items, places, reports)
    ensures StandIn(items + [item], places, reports)
    ensures StandIn(items + [item], places + [|items|], reports + [item])
  {}

  /** The reports are the items with the key, in the order they stand in. */
  lemma {:induction false} ReportsStand<V(!new), K(!new)>(rule: MergeRule<V, K>, items: seq<V>, k: K)
    ensures StandIn(items, Places(rule, items, k), Reports(rule, items, k))
  {
    if items != [] {
      hide StandIn;
      var n := |items| - 1;
      ReportsStand(rule, items[..n], k);
      StandInPush(items[..n], items[n], Places(rule, items[..n], k), Reports(rule, items[..n], k));
      assert items[..n] + [items[n]] == items;
      if rule.key(items[n]) != k { assert Places(rule, items, k) == Places(rule, items[..n], k); }
    }
  }

  lemma {:induction false} AllPlaces<V(!new), K(!new)>(rule: MergeRule<V, K>, items: seq<V>, k: K, p: nat)
    requires p < |items| && rule.key(items[p]) == k
    ensures p in Places(rule, items, k)
  {
    var n := |items| - 1;
    if p < n { AllPlaces(rule, items[..n], k, p); }
  }

  /** Each merged record has its own key, and each item's key is that of one. */
  lemma MergedByKey<V(!new), K(!new)>(rule: MergeRule<V, K>, items: seq<V>)
    requires rule.KeepsKeys()
    ensures var target := MergeAll(rule, Merged([], {}), items).target;
      && (forall v :: v in items ==> exists r :: r in target && rule.key(r) == rule.key(v))
      && (forall i, j :: 0 <= i < j < |target| ==> rule.key(target[i]) != rule.key(target[j]))
  {
    MergeIsFoldOfReports(rule, items);
    var target := MergeAll(rule, Merged([], {}), items).target;
    hide MergeAll, IsFold;
    var keys, all := Keys(rule, target), Keys(rule, items);
    forall v | v in items ensures exists r :: r in target && rule.key(r) == rule.key(v) {
      var p :| 0 <= p < |items| && items[p] == v;
      assert all[p] in keys;
      var i :| 0 <= i < |keys| && keys[i] == rule.key(v);
      assert target[i] in target;
    }
    forall i, j | 0 <= i < j < |target| ensures rule.key(target[i]) != rule.key(target[j]) {
      assert keys[i] != keys[j];
    }
  }

  /** The merged records stand in the order in which their first reports do. */
  lemma MergedInOrder<V(!new), K(!new)>(rule: MergeRule<V, K>, items: seq<V>, i: nat, j: nat) returns (m: nat, n: nat)
    requires rule.KeepsKeys() && i < j < |MergeAll(rule, Merged([], {}), items).target|
    ensures var target := MergeAll(rule, Merged([], {}), items).target;
      && m < n < |items| && rule.key(items[m]) == rule.key(target[i]) && rule.key(items[n]) == rule.key(target[j])
      && (forall k :: 0 <= k < m ==> rule.key(items[k]) != rule.key(target[i]))
      && (forall k :: 0 <= k < n ==> rule.key(items[k]) != rule.key(target[j]))
  {
    MergeIsFoldOfReports(rule, items);
    var target := MergeAll(rule, Merged([], {}), items).target;
    hide MergeAll, IsFold;
    var keys := Keys(rule, items);
    m, n := FirstsInOrder(keys, i, j);
    assert Firsts(keys)[i] == Keys(rule, target)[i] && Firsts(keys)[j] == Keys(rule, target)[j];
    assert forall k :: 0 <= k < m ==> keys[..m][k] == keys[k];
    assert forall k :: 0 <= k < n ==> keys[..n][k] == keys[k];
  }

  /** Without an upgrade every merged record is one of the reports. */
  lemma {:induction false} MergedAreReports<V(!new), K(!new)>(rule: MergeRule<V, K>, items: seq<V>)
    requires rule.upgrade.None?
    ensures forall v :: v in MergeAll(rule, Merged([], {}), items).target ==> v in items
  {
    if items != [] { MergedAreReports(rule, items[..|items| - 1]); }
  }

  /** The keys a list already holds, for a caller that merges into it afresh. */
  ghost function InitialSeen<V(!new), K(!new)>(rule: MergeRule<V, K>, target: seq<V>): set<K> {
    set v | v in target :: rule.key(v)
  }

  /** Merging on into an earlier outcome, with the seen set read off it again, is one merge of everything. */
  lemma MergeCanBeResumed<V(!new), K(!new)>(rule: MergeRule<V, K>, a: seq<V>, b: seq<V>)
    requires rule.KeepsKeys()
    ensures
      var m := MergeAll(rule, Merged([], {}), a);
      MergeAll(rule, Merged(m.target, InitialSeen(rule, m.target)), b) == MergeAll(rule, Merged([], {}), a + b)
  {
    var m := MergeAll(rule, Merged([], {}), a);
    MergeIsFoldOfReports(rule, a);
    hide MergeAll, IsFold;
    MergeInTwoGoes(rule, Merged([], {}), a, b);
    SeenIsKeys(rule, m.target);
    assert InitialSeen(rule, m.target) == m.seen;
  }

  lemma SeenIsKeys<V(!new), K(!new)>(rule: MergeRule<V, K>, target: seq<V>)
    ensures forall k :: k in InitialSeen(rule, target) <==> k in Keys(rule, target)
  {
    var keys := Keys(rule, target);
    forall k ensures k in InitialSeen(rule, target) <==> k in keys {
      if k in keys {
        var i :| 0 <= i < |keys| && keys[i] == k;
        assert target[i] in target;
      }
      if v :| v in target && rule.key(v) == k {
        var i :| 0 <= i < |target| && target[i] == v;
        assert keys[i] == k;
      }
    }
  }

  // ---- one list field of the destination ----

  function Values<V>(cells: seq<Cell<V>>): (r: seq<V>)
    reads cells
    ensures |r| == |cells| && forall i :: 0 <= i < |r| ==> r[i] == cells[i].v
  {
    seq(|cells|, i requires 0 <= i < |cells| reads cells => cells[i].v)
  }

  /** Every key leads to the last record that carries it. */
  ghost predicate Exact<V(!new), K(!new)>(
    rule: MergeRule<V, K>, values: seq<V>, cells: seq<Cell<V>>, index: map<K, Cell<V>>)
    requires |values| == |cells|
  {
    forall k :: ExactAt(rule, values, cells, index, k)
  }

  ghost predicate ExactAt<V(!new), K(!new)>(
    rule: MergeRule<V, K>, values: seq<V>, cells: seq<Cell<V>>, index: map<K, Cell<V>>, k: K)
    requires |values| == |cells|
  {
    var at := LastAt(rule, values, k);
    (k in index <==> at.Some?) && (k in index ==> index[k] == cells[at.value])
  }

  lemma ExactHere<V(!new), K(!new)>(
    rule: MergeRule<V, K>, values: seq<V>, cells: seq<Cell<V>>, index: map<K, Cell<V>>, k: K)
    requires |values| == |cells| && Exact(rule, values, cells, index)
    ensures ExactAt(rule, values, cells, index, k)
  {
  }

  lemma ExactAppend<V(!new), K(!new)>(
    rule: MergeRule<V, K>, values: seq<V>, cells: seq<Cell<V>>, index: map<K, Cell<V>>, v: V, c: Cell<V>)
    requires |values| == |cells| && Exact(rule, values, cells, index)
    ensures Exact(rule, values + [v], cells + [c], index[rule.key(v) := c])
  {
    var values', cells', index' := values + [v], cells + [c], index[rule.key(v) := c];
    assert values'[..|values|] == values;
    forall k ensures ExactAt(rule, values', cells', index', k) {
      assert ExactAt(rule, values, cells, index, k);
    }
  }

  lemma ExactUpdate<V(!new), K(!new)>(
    rule: MergeRule<V, K>, values: seq<V>, cells: seq<Cell<V>>, index: map<K, Cell<V>>, at: nat, v: V)
    requires |values| == |cells| && Exact(rule, values, cells, index)
    requires at < |values| && rule.key(v) == rule.key(values[at])
    ensures Exact(rule, values[at := v], cells, index)
  {
    var values' := values[at := v];
    SameKeysSameLast(rule, values, values');
    forall k ensures ExactAt(rule, values', cells, index, k) {
      assert ExactAt(rule, values, cells, index, k);
    }
  }

  class Field<V(!new), K(!new, ==)> {
    var target: seq<Cell<V>>
    var seen: set<K>

    constructor ()
      ensures target == [] && seen == {}
    {
      target, seen := [], {};
    }

    method BuildIndex(rule: MergeRule<V, K>) returns (index: map<K, Cell<V>>)
      ensures Exact(rule, Values(target), target, index)
    {
      index := map[];
      assert forall k :: ExactAt(rule, Values(target)[..0], target[..0], index, k);
      for i := 0 to |target|
        invariant Exact(rule, Values(target)[..i], target[..i], index)
      {
        assert target[..i + 1] == target[..i] + [target[i]];
        assert Values(target)[..i + 1] == Values(target)[..i] + [target[i].v];
        ExactAppend(rule, Values(target)[..i], target[..i], index, target[i].v, target[i]);
        index := index[rule.key(target[i].v) := target[i]];
      }
      assert Values(target)[..|target|] == Values(target) && target[..|target|] == target;
    }

    /** One item: kept when its key is new, otherwise folded into the record it duplicates. */
    method Absorb(item: Cell<V>, rule: MergeRule<V, K>, lazy: Option<map<K, Cell<V>>>)
      returns (index: Option<map<K, Cell<V>>>)
      requires rule.KeepsKeys() && Distinct(target) && item !in target
      requires lazy.Some? ==> Exact(rule, Values(target), target, lazy.value)
      modifies this, target
      ensures Merged(Values(target), seen) ==
              MergeOne(rule, Merged(old(Values(target)), old(seen)), old(item.v))
      ensures target == old(target) || target == old(target) + [item]
      ensures item.v == old(item.v)
      ensures index.Some? ==> Exact(rule, Values(target), target, index.value)
    {
      hide Exact;
      index := lazy;
      var k := rule.key(item.v);
      ghost var was := Values(target);
      if k in seen {
        if rule.upgrade.Some? {
          if index.None? {
            var built := BuildIndex(rule);
            index := Some(built);
          }
          ExactHere(rule, was, target, index.value, k);
          if k in index.value {
            var existing := index.value[k];
            ghost var at := LastAt(rule, was, k).value;
            ghost var better := rule.upgrade.value(was[at], item.v);
            ExactUpdate(rule, was, target, index.value, at, better);
            existing.v := rule.upgrade.value(existing.v, item.v);
            assert Values(target) == was[at := better];
          }
        }
      } else {
        if index.Some? {
          ExactAppend(rule, was, target, index.value, item.v, item);
          index := Some(index.value[k := item]);
        }
        seen := seen + {k};
        target := target + [item];
        assert Values(target) == was + [item.v];
      }
    }

    /** Appends the items whose key is new, and upgrades the kept record on a known key. */
    method MergeInto(items: seq<Cell<V>>, rule: MergeRule<V, K>)
      requires rule.KeepsKeys()
      requires Distinct(target) && Distinct(items) && Apart(target, items)
      modifies this, target, items
      ensures Merged(Values(target), seen) ==
              MergeAll(rule, Merged(old(Values(target)), old(seen)), old(Values(items)))
      ensures old(target) <= target && Distinct(target)
      ensures forall c :: c in target ==> c in old(target) || c in items
    {
      ghost var was := old(Values(items));
      ghost var start := Merged(Values(target), seen);
      var index: Option<map<K, Cell<V>>> := None;
      hide Exact, MergeOne;
      for n := 0 to |items|
        invariant Merged(Values(target), seen) == MergeAll(rule, start, was[..n])
        invariant old(target) <= target && Distinct(target)
        invariant forall c :: c in target ==> c in old(target) || c in items
        invariant forall j :: n <= j < |items| ==> items[j].v == was[j] && items[j] !in target
        invariant index.Some? ==> Exact(rule, Values(target), target, index.value)
      {
        assert was[..n + 1][..n] == was[..n];
        assert forall j :: 0 <= j < |target| ==> target[j] in old(target) || target[j] in items;
        index := Absorb(items[n], rule, index);
      }
      assert was[..|items|] == was;
    }
  }

  lemma {:induction false} SameKeysSameLast<V(!new), K(!new)>(rule: MergeRule<V, K>, a: seq<V>, b: seq<V>)
    requires |a| == |b| && forall i :: 0 <= i < |a| ==> rule.key(a[i]) == rule.key(b[i])
    ensures forall k :: LastAt(rule, a, k) == LastAt(rule, b, k)
  {
    if a != [] {
      SameKeysSameLast(rule, a[..|a| - 1], b[..|b| - 1]);
    }
  }
}
