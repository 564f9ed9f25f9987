/** The shared budget for per-route detection rules (src/attackmap/detection_opportunities.py). */
module DetectionOpportunities {
  import opened Counting

  datatype Opportunity = Opportunity(id: string, relatedRuleIds: seq<string>)

  function ClassOf(o: Opportunity): string {
    if o.relatedRuleIds != [] then o.relatedRuleIds[0] else ""
  }

  /** The class of every opportunity: the first of its rule ids, or the empty one. */
  function Classes(opps: seq<Opportunity>): (c: seq<string>)
    ensures |c| == |opps| && forall i :: 0 <= i < |c| ==>
      c[i] == ClassOf(opps[i]) && var ids := opps[i].relatedRuleIds; (if ids == [] then c[i] == "" else c[i] == ids[0])
  {
    seq(|opps|, i requires 0 <= i < |opps| => ClassOf(opps[i]))
  }

  // ---- what a fair cap is ----

  /** Positions of the members of class `c`, in order. */
  function Positions(cls: seq<string>, c: string): (p: seq<nat>)
    ensures forall r :: 0 <= r < |p| ==> p[r] < |cls| && cls[p[r]] == c
    ensures |p| <= |cls|
    ensures p == [] <==> c !in cls
  {
    if cls == [] then []
    else
      var k := |cls| - 1;
      assert forall x :: x in cls <==> x in cls[..k] || x == cls[k];
      if cls[k] == c then Positions(cls[..k], c) + [k] else Positions(cls[..k], c)
  }

  /** How many earlier members its class has. */
  function Rank(cls: seq<string>, i: nat): nat
    requires i < |cls|
  {
    |Positions(cls[..i], cls[i])|
  }

  lemma {:induction false} PositionOfRank(cls: seq<string>, i: nat)
    requires i < |cls|
    ensures Rank(cls, i) < |Positions(cls, cls[i])| && Positions(cls, cls[i])[Rank(cls, i)] == i
  {
    if i < |cls| - 1 {
      var shorter := cls[..|cls| - 1];
      PositionOfRank(shorter, i);
      assert shorter[..i] == cls[..i];
    }
  }

  lemma {:induction false} RankOfPosition(cls: seq<string>, c: string, r: nat)
    requires r < |Positions(cls, c)|
    ensures Rank(cls, Positions(cls, c)[r]) == r
  {
    var k := |cls| - 1;
    PositionsOfLonger(cls, c);
    hide Positions;
    if r < |Positions(cls[..k], c)| {
      RankOfPosition(cls[..k], c, r);
      RankOfLonger(cls, Positions(cls[..k], c)[r]);
    }
  }

  lemma PositionsOfLonger(cls: seq<string>, c: string)
    requires cls != []
    ensures var k := |cls| - 1;
      Positions(cls, c) == Positions(cls[..k], c) + if cls[k] == c then [k] else []
  {}

  lemma RankOfLonger(cls: seq<string>, i: nat)
    requires i < |cls| - 1
    ensures Rank(cls, i) == Rank(cls[..|cls| - 1], i)
  {
    hide Positions;
    assert cls[..|cls| - 1][..i] == cls[..i];
  }

  function First(cls: seq<string>, i: nat): nat
    requires i < |cls|
  {
    PositionOfRank(cls, i);
    Positions(cls, cls[i])[0]
  }

  /** Round-robin order: by rank within the class, then by the class that appeared first. */
  ghost predicate Before(cls: seq<string>, i: nat, j: nat)
    requires i < |cls| && j < |cls|
  {
    Rank(cls, i) < Rank(cls, j) || (Rank(cls, i) == Rank(cls, j) && First(cls, i) < First(cls, j))
  }

  /** `kept` is the first min(limit, n) positions in round-robin order. */
  ghost predicate FairShare(cls: seq<string>, limit: nat, kept: set<nat>) {
    && (forall i :: i in kept ==> i < |cls|)
    && |kept| == (if |cls| <= limit then |cls| else limit)
    && forall i: nat, j: nat :: i in kept && j < |cls| && j !in kept ==> Before(cls, i, j)
  }

  /** The members of `kept`, in the original order. */
  function Select<T>(s: seq<T>, kept: set<nat>): seq<T> {
    if s == [] then []
    else
      var k := |s| - 1;
      if k in kept then Select(s[..k], kept) + [s[k]] else Select(s[..k], kept)
  }

  function KeptOf(cls: seq<string>, kept: set<nat>, c: string): set<nat> {
    set i | i in kept && i < |cls| && cls[i] == c
  }

  /** A kept member's predecessors in its class are kept too. */
  lemma KeepsClassPrefixes(cls: seq<string>, limit: nat, kept: set<nat>, i: nat, j: nat)
    requires FairShare(cls, limit, kept)
    requires i < j < |cls| && cls[i] == cls[j] && j in kept
    ensures i in kept
  {
    PositionOfRank(cls, i);
    PositionOfRank(cls, j);
    RanksAscend(cls, i, j);
  }

  lemma {:induction false} RanksAscend(cls: seq<string>, i: nat, j: nat)
    requires i < j < |cls| && cls[i] == cls[j]
    ensures Rank(cls, i) < Rank(cls, j)
  {
    PositionOfRank(cls[..j], i);
    assert cls[..j][..i] == cls[..i];
  }

  /** If the first `t` of class `c` are kept and the next is not, the class keeps `t` items. */
  lemma KeptAreFirst(cls: seq<string>, limit: nat, kept: set<nat>, c: string, j: nat)
    requires FairShare(cls, limit, kept)
    requires j < |cls| && cls[j] == c && j !in kept
    requires forall i: nat :: i < j && cls[i] == c ==> i in kept
    ensures |KeptOf(cls, kept, c)| == Rank(cls, j)
  {
    forall i | i in KeptOf(cls, kept, c) ensures i in Positions(cls[..j], c) {
      if i > j { KeepsClassPrefixes(cls, limit, kept, j, i); }
      PositionOfRank(cls[..j], i);
    }
    forall i | i in Positions(cls[..j], c) ensures i in KeptOf(cls, kept, c) {}
    assert KeptOf(cls, kept, c) == set i | i in Positions(cls[..j], c);
    PositionsAreDistinct(cls[..j], c);
  }

  lemma {:induction false} PositionsAreDistinct(cls: seq<string>, c: string)
    ensures |set i | i in Positions(cls, c)| == |Positions(cls, c)|
  {
    if cls != [] {
      var k := |cls| - 1;
      PositionsAreDistinct(cls[..k], c);
      if cls[k] == c {
        assert (set i | i in Positions(cls, c)) == (set i | i in Positions(cls[..k], c)) + {k};
      }
    }
  }

  /** A class of more than `t` kept items has kept one of rank `t` or more. */
  lemma {:induction false} DeepMember(cls: seq<string>, kept: set<nat>, c: string, t: nat)
    requires |KeptOf(cls, kept, c)| > t
    ensures exists i :: i in kept && i < |cls| && cls[i] == c && Rank(cls, i) >= t
  {
    var members := KeptOf(cls, kept, c);
    if forall i :: i in members ==> Rank(cls, i) < t {
      var firsts := set i | i in members :: Rank(cls, i);
      RanksAreInjective(cls, members, c);
      SubsetSize(firsts, Below(t));
    }
  }

  lemma {:induction false} RanksAreInjective(cls: seq<string>, members: set<nat>, c: string)
    requires forall i :: i in members ==> i < |cls| && cls[i] == c
    ensures |set i | i in members :: Rank(cls, i)| == |members|
  {
    if members != {} {
      var x :| x in members;
      var rest := members - {x};
      RanksAreInjective(cls, rest, c);
      forall i | i in rest ensures Rank(cls, i) != Rank(cls, x) {
        PositionOfRank(cls, i);
        PositionOfRank(cls, x);
      }
      assert (set i | i in members :: Rank(cls, i)) == (set i | i in rest :: Rank(cls, i)) + {Rank(cls, x)};
    }
  }

  /** Max-min fairness: a class that kept over one item fewer than another is exhausted. */
  lemma MaxMinFair(cls: seq<string>, limit: nat, kept: set<nat>, a: string, b: string, j: nat)
    requires FairShare(cls, limit, kept)
    requires |KeptOf(cls, kept, a)| + 1 < |KeptOf(cls, kept, b)|
    requires j < |cls| && cls[j] == a
    ensures j in kept
    decreases j
  {
    if j !in kept {
      forall i: nat | i < j && cls[i] == a ensures i in kept { MaxMinFair(cls, limit, kept, a, b, i); }
      KeptAreFirst(cls, limit, kept, a, j);
      DeepMember(cls, kept, b, |KeptOf(cls, kept, a)| + 1);
    }
  }

  /** The share is a function of the classes and the limit. */
  lemma FairShareIsUnique(cls: seq<string>, limit: nat, x: set<nat>, y: set<nat>)
    requires FairShare(cls, limit, x) && FairShare(cls, limit, y)
    ensures x == y
  {
    if x <= y {
      SubsetSize(x, y);
    } else if y <= x {
      SubsetSize(y, x);
    } else {
      var i :| i in x && i !in y;
      var j :| j in y && j !in x;
      assert false;
    }
  }

  // ---- the allocator ----

  /** Each class has its positions as its queue. */
  ghost predicate Queued(cls: seq<string>, order: seq<string>, byRule: map<string, seq<nat>>) {
    && (forall c :: c in byRule <==> c in order)
    && (forall c :: c in order <==> c in cls)
    && (forall c :: c in byRule ==> byRule[c] == Positions(cls, c) && byRule[c] != [])
  }

  /** Classes in order of first appearance, each with its positions. */
  ghost predicate Grouped(cls: seq<string>, order: seq<string>, byRule: map<string, seq<nat>>) {
    Queued(cls, order, byRule) && InFirstOrder(order, byRule)
  }

  ghost predicate InFirstOrder(order: seq<string>, byRule: map<string, seq<nat>>)
    requires forall c :: c in byRule <==> c in order
    requires forall c :: c in byRule ==> byRule[c] != []
  {
    forall a, b :: 0 <= a < b < |order| ==> byRule[order[a]][0] < byRule[order[b]][0]
  }

  lemma PositionsNext(front: seq<string>, c: string, x: string)
    ensures Positions(front + [c], x) == Positions(front, x) + if c == x then [|front|] else []
  {
    assert (front + [c])[..|front|] == front;
  }

  /** What the rule ids and their queues are once one more opportunity is filed under `c`. */
  function OrderWith(order: seq<string>, c: string): (r: seq<string>)
    ensures forall x :: x in r <==> x in order || x == c
  {
    if c in order then order else order + [c]
  }

  function QueuesWith(byRule: map<string, seq<nat>>, c: string, k: nat): (r: map<string, seq<nat>>)
    ensures r.Keys == byRule.Keys + {c}
  {
    byRule[c := (if c in byRule then byRule[c] else []) + [k]]
  }

  lemma FirstOrderNext(order: seq<string>, byRule: map<string, seq<nat>>, c: string, k: nat)
    requires forall x :: x in byRule <==> x in order
    requires forall x :: x in byRule ==> byRule[x] != [] && byRule[x][0] < k
    requires InFirstOrder(order, byRule)
    ensures InFirstOrder(OrderWith(order, c), QueuesWith(byRule, c, k))
  {
    var order' := OrderWith(order, c);
    var byRule' := QueuesWith(byRule, c, k);
    forall a, b | 0 <= a < b < |order'| ensures byRule'[order'[a]][0] < byRule'[order'[b]][0] {
      assert order'[a] == order[a] && order[a] in byRule;
      assert byRule'[order[a]][0] == byRule[order[a]][0];
      if b < |order| { assert byRule[order[a]][0] < byRule[order[b]][0]; }
    }
  }

  lemma QueueNext(front: seq<string>, c: string, order: seq<string>, byRule: map<string, seq<nat>>, x: string)
    requires Queued(front, order, byRule) && (x in byRule || x == c)
    ensures QueuesWith(byRule, c, |front|)[x] == Positions(front + [c], x) != []
  {
    hide Positions;
    PositionsNext(front, c, x);
    if x !in byRule { assert Positions(front, x) == []; }
  }

  lemma QueuedNext(front: seq<string>, c: string, order: seq<string>, byRule: map<string, seq<nat>>)
    requires Queued(front, order, byRule)
    ensures Queued(front + [c], OrderWith(order, c), QueuesWith(byRule, c, |front|))
  {
    hide QueuesWith, OrderWith, Positions;
    var byRule' := QueuesWith(byRule, c, |front|);
    forall x | x in byRule' ensures byRule'[x] == Positions(front + [c], x) && byRule'[x] != [] {
      QueueNext(front, c, order, byRule, x);
    }
    assert forall x :: x in front + [c] <==> x in front || x == c;
  }

  lemma GroupNext(front: seq<string>, c: string, order: seq<string>, byRule: map<string, seq<nat>>)
    requires Grouped(front, order, byRule)
    ensures Grouped(front + [c], OrderWith(order, c), QueuesWith(byRule, c, |front|))
    ensures c in byRule <==> c in order
  {
    hide Positions;
    assert forall x :: x in byRule ==> byRule[x][0] < |front|;
    FirstOrderNext(order, byRule, c, |front|);
    QueuedNext(front, c, order, byRule);
  }

  /** Positions that come before point (depth, q) of the round robin over the queues. */
  ghost function Served(cls: seq<string>, order: seq<string>, depth: nat, q: nat): set<nat>
    requires q <= |order|
  {
    set i: nat | i < |cls| && (Rank(cls, i) < depth || (Rank(cls, i) == depth && cls[i] in order[..q]))
  }

  lemma ServeOne(cls: seq<string>, order: seq<string>, byRule: map<string, seq<nat>>, depth: nat, q: nat)
    requires Grouped(cls, order, byRule) && q < |order|
    ensures
      var queue := byRule[order[q]];
      Served(cls, order, depth, q + 1) ==
        Served(cls, order, depth, q) + (if depth < |queue| then {queue[depth]} else {})
    ensures depth < |byRule[order[q]]| ==> byRule[order[q]][depth] !in Served(cls, order, depth, q)
  {
    hide Grouped, Served, Rank;
    ServedNext(cls, order, depth, q);
    AtDepth(cls, order, byRule, depth, q);
    OrderIsDistinct(cls, order, byRule, q);
    InGroup(cls, order, byRule, q);
  }

  /** The positions of a class that come at `depth`. */
  ghost function AtRank(cls: seq<string>, c: string, depth: nat): set<nat> {
    set i: nat | i < |cls| && Rank(cls, i) == depth && cls[i] == c
  }

  lemma ServedNext(cls: seq<string>, order: seq<string>, depth: nat, q: nat)
    requires q < |order|
    ensures Served(cls, order, depth, q + 1) == Served(cls, order, depth, q) + AtRank(cls, order[q], depth)
    ensures order[q] !in order[..q] ==> Served(cls, order, depth, q) !! AtRank(cls, order[q], depth)
  {
    hide Rank;
    assert order[..q + 1] == order[..q] + [order[q]];
  }

  lemma AtDepth(cls: seq<string>, order: seq<string>, byRule: map<string, seq<nat>>, depth: nat, q: nat)
    requires Grouped(cls, order, byRule) && q < |order|
    ensures order[q] in byRule
    ensures
      var queue := byRule[order[q]];
      AtRank(cls, order[q], depth) == if depth < |queue| then {queue[depth]} else {}
  {
    var c := order[q];
    QueueOf(cls, order, byRule, q);
    hide Rank, Positions, Grouped;
    if depth < |Positions(cls, c)| { RankOfPosition(cls, c, depth); }
    forall i | i in AtRank(cls, c, depth) ensures depth < |Positions(cls, c)| && Positions(cls, c)[depth] == i {
      PositionOfRank(cls, i);
    }
  }

  lemma QueueOf(cls: seq<string>, order: seq<string>, byRule: map<string, seq<nat>>, q: nat)
    requires Grouped(cls, order, byRule) && q < |order|
    ensures order[q] in byRule && byRule[order[q]] == Positions(cls, order[q])
  {}

  lemma OrderIsDistinct(cls: seq<string>, order: seq<string>, byRule: map<string, seq<nat>>, q: nat)
    requires Grouped(cls, order, byRule) && q < |order|
    ensures order[q] !in order[..q]
  {
    hide Positions;
  }

  lemma NextRound(cls: seq<string>, order: seq<string>, byRule: map<string, seq<nat>>, depth: nat)
    requires Grouped(cls, order, byRule)
    ensures Served(cls, order, depth, |order|) == Served(cls, order, depth + 1, 0)
  {
    assert order[..|order|] == order;
    forall i: nat | i < |cls| ensures cls[i] in order {}
  }

  lemma ServedAll(cls: seq<string>, order: seq<string>, byRule: map<string, seq<nat>>, depth: nat)
    requires Grouped(cls, order, byRule)
    requires forall q :: 0 <= q < |order| ==> |byRule[order[q]]| <= depth
    ensures |Served(cls, order, depth, 0)| == |cls|
  {
    forall i: nat | i < |cls| ensures Rank(cls, i) < depth {
      assert cls[i] in order;
      PositionOfRank(cls, i);
    }
    assert Served(cls, order, depth, 0) == Below(|cls|);
  }

  lemma ServedIsFair(cls: seq<string>, order: seq<string>, byRule: map<string, seq<nat>>, depth: nat, q: nat, limit: nat)
    requires Grouped(cls, order, byRule) && q <= |order| && limit < |cls|
    requires |Served(cls, order, depth, q)| == limit
    ensures FairShare(cls, limit, Served(cls, order, depth, q))
  {
    var kept := Served(cls, order, depth, q);
    forall i: nat, j: nat | i in kept && j < |cls| && j !in kept ensures Before(cls, i, j) {
      if Rank(cls, i) == Rank(cls, j) {
        var a :| 0 <= a < q && order[a] == cls[i];
        assert cls[j] in order;
        var b :| 0 <= b < |order| && order[b] == cls[j];
        assert forall k :: 0 <= k < q ==> order[k] in order[..q];
        assert a < b;
      }
    }
  }

  lemma NothingGrouped()
    ensures Grouped([], [], map[])
  {}

  method GroupByRule(opps: seq<Opportunity>) returns (order: seq<string>, byRule: map<string, seq<nat>>)
    ensures Grouped(Classes(opps), order, byRule)
  {
    hide Grouped, Queued, Positions, InFirstOrder;
    ghost var cls := Classes(opps);
    order, byRule := [], map[];
    NothingGrouped();
    for index := 0 to |opps|
      invariant Grouped(cls[..index], order, byRule)
    {
      var c := ClassOf(opps[index]);
      GroupNext(cls[..index], c, order, byRule);
      assert cls[..index + 1] == cls[..index] + [c];
      if c in byRule {
        byRule := byRule[c := byRule[c] + [index]];
      } else {
        order, byRule := order + [c], byRule[c := [] + [index]];
      }
    }
    assert cls[..|cls|] == cls;
  }

  /** One round: the item at `depth` of each queue, while the budget lasts. */
  method TakeRound(ghost cls: seq<string>, order: seq<string>, byRule: map<string, seq<nat>>,
                   depth: nat, limit: nat, kept: set<nat>)
    returns (keep: set<nat>, ghost reached: nat)
    requires Grouped(cls, order, byRule)
    requires kept == Served(cls, order, depth, 0) && |kept| < limit
    ensures reached <= |order| && keep == Served(cls, order, depth, reached) && |keep| <= limit
    ensures |keep| < limit ==> reached == |order|
  {
    hide Grouped, Served;
    keep := kept;
    reached := 0;
    for q := 0 to |order|
      invariant reached <= |order| && keep == Served(cls, order, depth, reached) && |keep| <= limit
      invariant |keep| < limit ==> reached == q
    {
      InGroup(cls, order, byRule, q);
      var queue := byRule[order[q]];
      if |keep| < limit {
        ServeOne(cls, order, byRule, depth, q);
        reached := q + 1;
        if depth < |queue| { keep := keep + {queue[depth]}; }
      }
    }
  }

  lemma InGroup(cls: seq<string>, order: seq<string>, byRule: map<string, seq<nat>>, q: nat)
    requires Grouped(cls, order, byRule) && q < |order|
    ensures order[q] in byRule && |byRule[order[q]]| <= |cls|
  {}

  lemma StartServed(cls: seq<string>, order: seq<string>)
    ensures Served(cls, order, 0, 0) == {}
  {}

  /** Keeps at most `limit` opportunities, shared fairly across classes, in their original order. */
  method FairCap(opps: seq<Opportunity>, limit: nat) returns (out: seq<Opportunity>)
    ensures exists kept :: FairShare(Classes(opps), limit, kept) && out == Select(opps, kept)
    ensures |out| == if |opps| <= limit then |opps| else limit
  {
    hide Grouped, Served;
    ghost var cls := Classes(opps);
    if |opps| <= limit {
      out := opps;
      SelectAll(opps, Below(|opps|));
      assert FairShare(cls, limit, Below(|opps|));
      return;
    }
    var order, byRule := GroupByRule(opps);
    forall q | 0 <= q < |order| ensures order[q] in byRule && |byRule[order[q]]| <= |cls| {
      InGroup(cls, order, byRule, q);
    }
    StartServed(cls, order);
    var keep: set<nat> := {};
    var depth := 0;
    ghost var d: nat, s: nat := 0, 0; // where the round robin stood when the budget ran out
    while |keep| < limit && exists q :: 0 <= q < |order| && depth < |byRule[order[q]]|
      invariant s <= |order| && keep == Served(cls, order, d, s) && |keep| <= limit
      invariant |keep| < limit ==> d == depth && s == 0
      decreases |cls| - depth
    {
      keep, s := TakeRound(cls, order, byRule, depth, limit, keep);
      d := depth;
      if |keep| < limit {
        NextRound(cls, order, byRule, depth);
        d, s := depth + 1, 0;
      }
      depth := depth + 1;
    }
    if |keep| < limit { ServedAll(cls, order, byRule, depth); }
    ServedIsFair(cls, order, byRule, d, s, limit);
    out := [];
    for index := 0 to |opps|
      invariant out == Select(opps[..index], keep)
    {
      assert opps[..index + 1][..index] == opps[..index];
      if index in keep { out := out + [opps[index]]; }
    }
    assert opps[..|opps|] == opps;
    SelectSize(opps, keep);
  }

  lemma {:induction false} SelectSize<T>(s: seq<T>, kept: set<nat>)
    requires forall i :: i in kept ==> i < |s|
    ensures |Select(s, kept)| == |kept|
  {
    if s == [] {
      assert kept == {};
    } else {
      var k := |s| - 1;
      SelectSize(s[..k], kept - {k});
      SelectSame(s[..k], kept, kept - {k});
    }
  }

  lemma {:induction false} SelectSame<T>(s: seq<T>, a: set<nat>, b: set<nat>)
    requires forall i: nat :: i < |s| ==> (i in a <==> i in b)
    ensures Select(s, a) == Select(s, b)
  {
    if s != [] { SelectSame(s[..|s| - 1], a, b); }
  }

  lemma {:induction false} SelectAll<T>(s: seq<T>, kept: set<nat>)
    requires forall i: nat :: i < |s| ==> i in kept
    ensures Select(s, kept) == s
  {
    if s != [] { SelectAll(s[..|s| - 1], kept); }
  }
}
