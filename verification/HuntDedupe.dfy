/** Merging hypotheses that restate one lead (src/attackmap/hunt_harness.py). */
module HuntDedupe {
  import opened Lists
  import opened Orders
  import opened Text
  import opened Wrappers

  datatype Hypothesis = Hypothesis(id: string, title: string, evidence: string, lenses: seq<string>)

  const STOPWORDS: set<string> := {
    "the", "a", "an", "of", "in", "on", "to", "and", "or", "via", "with", "for",
    "at", "by", "from", "into", "that", "this", "is", "are", "reaches", "reach"}

  predicate TitleChar(c: char) {
    'a' <= c <= 'z' || 'A' <= c <= 'Z' || '0' <= c <= '9' || c == '_' || c == '.' || c == '/'
  }

  function TitleTokens(title: string): set<string> {
    set w | w in Words(Lower(title), TitleChar) && |w| > 2 && w !in STOPWORDS
  }

  predicate IdChar(c: char) { c != ',' && !IsSpace(c) }

  function EvidenceIds(evidence: string): set<string> {
    set t | t in Words(Lower(evidence), IdChar) && ':' in t
  }

  /** `len(a & b) / len(a | b) >= 0.4`, and false for two empty sets. */
  predicate Similar(a: set<string>, b: set<string>) {
    a + b != {} && 5 * |a * b| >= 2 * |a + b|
  }

  predicate SameLead(ta: set<string>, ea: set<string>, tb: set<string>, eb: set<string>) {
    (ta != {} && ta == tb) || (ea * eb != {} && Similar(ta, tb))
  }

  // ---- what is read from title and evidence, in plain terms ----

  /** Of lower case: `a` to `z`, `0` to `9`, or one of `./_`. */
  predicate TitleSign(c: char) {
    var n := c as int;
    97 <= n <= 122 || 47 <= n <= 57 || n == 46 || n == 95
  }

  lemma StopwordsAre(w: string)
    requires |w| > 2
    ensures w in STOPWORDS <==> w in COMMON
  {}

  const COMMON: seq<string> :=
    ["the", "and", "via", "with", "for", "from", "into", "that", "this", "are", "reaches", "reach"]

  /** The words of a title are the maximal runs of letters, digits and `_./`, in lower case, that are
      longer than two characters and not common. */
  lemma TitleTokensAre(title: string, w: string)
    ensures w in TitleTokens(title) <==>
      && |w| > 2
      && w !in COMMON
      && exists a: nat, b: nat :: RunAt(Lower(title), TitleSign, a, b) && w == Lower(title)[a..b]
  {
    var s := Lower(title);
    forall i | 0 <= i < |s| ensures TitleChar(s[i]) == TitleSign(s[i]) { SignsAgree(title[i]); }
    if |w| > 2 { StopwordsAre(w); }
    hide Words, RunAt, TitleChar, TitleSign, STOPWORDS, COMMON;
    WordIffRun(s, TitleChar, w);
    forall a: nat, b: nat ensures RunAt(s, TitleChar, a, b) <==> RunAt(s, TitleSign, a, b) {
      RunsAgree(s, TitleChar, TitleSign, a, b);
    }
  }

  lemma SignsAgree(c: char)
    ensures TitleChar(LowerChar(c)) <==> TitleSign(LowerChar(c))
  {}

  /** The ids of an evidence text are the maximal runs without comma and space, in lower case, that
      have a colon. */
  lemma EvidenceIdsAre(evidence: string, t: string)
    ensures t in EvidenceIds(evidence) <==>
      && ':' in t
      && exists a: nat, b: nat ::
        RunAt(Lower(evidence), c => !(c == ',' || IsSpace(c)), a, b) && t == Lower(evidence)[a..b]
  {
    var s, p := Lower(evidence), (c: char) => !(c == ',' || IsSpace(c));
    hide Words, RunAt, IsSpace;
    WordIffRun(s, IdChar, t);
    forall a: nat, b: nat ensures RunAt(s, IdChar, a, b) <==> RunAt(s, p, a, b) { RunsAgree(s, IdChar, p, a, b); }
  }

  // ---- ids survive being stored as text ----

  /** What every id read from text looks like: lower case, no separator, a colon. */
  ghost predicate IsId(t: string) {
    t != [] && AllOf(t, IdChar) && AllOf(t, IsLower) && ':' in t
  }

  predicate IsLower(c: char) { LowerChar(c) == c }

  lemma IdsReadAreIds(evidence: string)
    ensures forall t :: t in EvidenceIds(evidence) ==> IsId(t)
  {
    var words := Words(Lower(evidence), IdChar);
    WordsAreWithin(Lower(evidence), IdChar, IsLower);
    forall t | t in EvidenceIds(evidence) ensures IsId(t) {
      var i :| 0 <= i < |words| && words[i] == t;
    }
  }

  function StoredIds(ids: set<string>): string {
    Joined(", ", SortedStrings(ids))
  }

  /** Reading back the stored, sorted and joined ids gives the same ids. */
  lemma LowerStays(text: string)
    requires AllOf(text, IsLower)
    ensures Lower(text) == text
  {}

  lemma StoredIdsReadBack(ids: set<string>)
    requires forall t :: t in ids ==> IsId(t)
    ensures EvidenceIds(StoredIds(ids)) == ids
  {
    hide SortedStrings, Joined, Words;
    var parts := SortedStrings(ids);
    forall i | 0 <= i < |parts| ensures IsId(parts[i]) { assert parts[i] in parts; }
    SplitOfJoined(", ", parts, IdChar);
    JoinedOf(", ", parts, IsLower);
    hide IsId;
    var text := Joined(", ", parts);
    LowerStays(text);
  }

  // ---- clustering ----

  /** A lead kept so far, its title tokens, and the evidence ids of all its restatements. */
  datatype Cluster = Cluster(lead: Hypothesis, tokens: set<string>, ids: set<string>)

  predicate Restates(c: Cluster, h: Hypothesis) {
    SameLead(c.tokens, c.ids, TitleTokens(h.title), EvidenceIds(h.evidence))
  }

  /** The first kept lead that `h` restates. */
  function FirstSame(kept: seq<Cluster>, h: Hypothesis): Option<nat> {
    FirstWhere(kept, c => Restates(c, h))
  }

  function Fold(c: Cluster, h: Hypothesis): Cluster {
    var ids := c.ids + EvidenceIds(h.evidence);
    c.(ids := ids,
       lead := c.lead.(evidence := if ids != {} then StoredIds(ids) else c.lead.evidence,
                       lenses := Firsts(c.lead.lenses + h.lenses)))
  }

  function Add(kept: seq<Cluster>, h: Hypothesis): seq<Cluster> {
    var at := FirstSame(kept, h);
    if at.Some? then kept[at.value := Fold(kept[at.value], h)]
    else kept + [Cluster(h, TitleTokens(h.title), EvidenceIds(h.evidence))]
  }

  function Clusters(hs: seq<Hypothesis>): seq<Cluster> {
    if hs == [] then [] else Add(Clusters(hs[..|hs| - 1]), hs[|hs| - 1])
  }

  function Leads(kept: seq<Cluster>): (r: seq<Hypothesis>)
    ensures |r| == |kept| && forall i :: 0 <= i < |r| ==> r[i] == kept[i].lead.(id := "H" + Decimal(i + 1))
  {
    seq(|kept|, i requires 0 <= i < |kept| => kept[i].lead.(id := "H" + Decimal(i + 1)))
  }

  /** Folds `h` into the first lead it restates, or keeps it as a lead of its own. */
  method Place(kept: seq<Cluster>, h: Hypothesis) returns (r: seq<Cluster>)
    ensures r == Add(kept, h)
  {
    hide TitleTokens, EvidenceIds, SameLead, Fold;
    var t, e := TitleTokens(h.title), EvidenceIds(h.evidence);
    var at := 0;
    while at < |kept| && !SameLead(kept[at].tokens, kept[at].ids, t, e)
      invariant at <= |kept| && forall k :: 0 <= k < at ==> !Restates(kept[k], h)
    {
      at := at + 1;
    }
    r := if at < |kept| then kept[at := Fold(kept[at], h)] else kept + [Cluster(h, t, e)];
  }

  // ---- which leads are merged, and into what ----

  /** The leads that went to cluster `i`, in order. */
  ghost function Members(hs: seq<Hypothesis>, owners: seq<nat>, i: nat): (ms: seq<Hypothesis>)
    requires |owners| == |hs|
    ensures (forall k :: 0 <= k < |owners| ==> owners[k] != i) ==> ms == []
  {
    if hs == [] then []
    else
      var k := |hs| - 1;
      Members(hs[..k], owners[..k], i) + if owners[k] == i then [hs[k]] else []
  }

  ghost function AllIds(ms: seq<Hypothesis>): set<string> {
    if ms == [] then {} else AllIds(ms[..|ms| - 1]) + EvidenceIds(ms[|ms| - 1].evidence)
  }

  ghost function AllLenses(ms: seq<Hypothesis>): seq<string> {
    if ms == [] then [] else AllLenses(ms[..|ms| - 1]) + ms[|ms| - 1].lenses
  }

  /** One of the leads cites an evidence id that `h` cites too. */
  ghost predicate ShareId(ms: seq<Hypothesis>, h: Hypothesis) {
    exists i, x :: 0 <= i < |ms| && x in EvidenceIds(ms[i].evidence) && x in EvidenceIds(h.evidence)
  }

  /** At least 0.4 of the words of the two titles are in both. */
  ghost predicate Overlap(a: set<string>, b: set<string>) {
    a + b != {} && |a * b| as real / |a + b| as real >= 0.4
  }

  /** `h` is the same lead as those of one cluster, whose title is that of the first: the same words
      in the title, or a shared evidence id and similar titles. */
  ghost predicate SameAs(ms: seq<Hypothesis>, h: Hypothesis)
    requires ms != []
  {
    var a, b := TitleTokens(ms[0].title), TitleTokens(h.title);
    (a == b && a != {}) || (ShareId(ms, h) && Overlap(a, b))
  }

  /** After `hs`, `h` goes to the first cluster it is the same as, or to a new one behind the others. */
  ghost predicate GoesTo(hs: seq<Hypothesis>, owners: seq<nat>, h: Hypothesis, at: nat)
    requires |owners| == |hs|
  {
    && (forall i: nat :: i < at ==> var ms := Members(hs, owners, i); ms != [] && !SameAs(ms, h))
    && var ms := Members(hs, owners, at);
       if ms != [] then SameAs(ms, h) else forall i: nat :: i > at ==> Members(hs, owners, i) == []
  }

  ghost predicate Dealt(hs: seq<Hypothesis>, owners: seq<nat>) {
    && |owners| == |hs|
    && (hs != [] ==>
      var k := |hs| - 1;
      Dealt(hs[..k], owners[..k]) && GoesTo(hs[..k], owners[..k], hs[k], owners[k]))
  }

  /** A lead that nothing joined is left as it is; else it holds all ids, sorted, and all lenses, each once. */
  ghost predicate MergeOf(ms: seq<Hypothesis>, lead: Hypothesis)
    requires ms != []
  {
    && lead.title == ms[0].title
    && lead.evidence == (if |ms| == 1 || AllIds(ms) == {} then ms[0].evidence else Joined(", ", SortedStrings(AllIds(ms))))
    && lead.lenses == (if |ms| == 1 then ms[0].lenses else Firsts(AllLenses(ms)))
  }

  /** The output has one lead for each cluster, named H1 to Hn. */
  ghost predicate Deduped(hs: seq<Hypothesis>, owners: seq<nat>, out: seq<Hypothesis>) {
    && Dealt(hs, owners)
    && (forall j :: 0 <= j < |owners| ==> owners[j] < |out|)
    && forall i: nat :: i < |out| ==> IsLead(Members(hs, owners, i), i, out[i])
  }

  ghost predicate IsLead(ms: seq<Hypothesis>, i: nat, lead: Hypothesis) {
    ms != [] && MergeOf(ms, lead) && lead.id == "H" + Decimal(i + 1)
  }

  /** Merging each lead into the first it is the same as leaves one outcome only. */
  lemma {:induction false} DealtOneWay(hs: seq<Hypothesis>, a: seq<nat>, b: seq<nat>)
    requires Dealt(hs, a) && Dealt(hs, b)
    ensures a == b
  {
    hide GoesTo, Dealt;
    DealtLast(hs, a);
    DealtLast(hs, b);
    if hs != [] {
      var k := |hs| - 1;
      DealtOneWay(hs[..k], a[..k], b[..k]);
      assert a == a[..k] + [a[k]] && b == b[..k] + [b[k]];
      GoesOneWay(hs[..k], a[..k], hs[k], a[k], b[k]);
    }
  }

  lemma DealtLast(hs: seq<Hypothesis>, owners: seq<nat>)
    requires Dealt(hs, owners)
    ensures |owners| == |hs|
    ensures hs != [] ==>
      var k := |hs| - 1;
      Dealt(hs[..k], owners[..k]) && GoesTo(hs[..k], owners[..k], hs[k], owners[k])
  {
    hide GoesTo;
  }

  lemma GoesOneWay(hs: seq<Hypothesis>, owners: seq<nat>, h: Hypothesis, a: nat, b: nat)
    requires |owners| == |hs| && GoesTo(hs, owners, h, a) && GoesTo(hs, owners, h, b)
    ensures a == b
  {
    hide SameAs, Members;
  }

  lemma MembersNext(hs: seq<Hypothesis>, owners: seq<nat>, h: Hypothesis, at: nat, i: nat)
    requires |owners| == |hs|
    ensures var ms := Members(hs, owners, i);
      Members(hs + [h], owners + [at], i) == if at == i then ms + [h] else ms
  {
    assert Members(hs, owners, i) + [] == Members(hs, owners, i);
    assert (hs + [h])[..|hs|] == hs && (owners + [at])[..|hs|] == owners;
  }

  lemma {:induction false} AllIdsAre(ms: seq<Hypothesis>, x: string)
    ensures x in AllIds(ms) <==> exists i :: 0 <= i < |ms| && x in EvidenceIds(ms[i].evidence)
  {
    hide EvidenceIds;
    if ms != [] {
      var k := |ms| - 1;
      AllIdsAre(ms[..k], x);
      if x in AllIds(ms[..k]) {
        var i :| 0 <= i < k && x in EvidenceIds(ms[..k][i].evidence);
        assert x in EvidenceIds(ms[i].evidence);
      }
      if i :| 0 <= i < |ms| && x in EvidenceIds(ms[i].evidence) {
        if i < k { assert x in EvidenceIds(ms[..k][i].evidence); }
      }
    }
  }

  lemma OverlapIsSimilar(a: set<string>, b: set<string>)
    ensures Overlap(a, b) <==> Similar(a, b)
  {
    if a + b != {} { AtLeast(|a * b| as real, |a + b| as real); }
  }

  lemma AtLeast(x: real, y: real)
    requires y > 0.0
    ensures x / y >= 0.4 <==> 5.0 * x >= 2.0 * y
  {
    var q := x / y;
    assert x == q * y;
    assert (q - 0.4) * y == x - 0.4 * y;
    assert q >= 0.4 <==> (q - 0.4) * y >= 0.0;
  }

  /** What a cluster keeps of its leads. */
  ghost predicate Keeps(ms: seq<Hypothesis>, c: Cluster) {
    ms != [] && c.tokens == TitleTokens(ms[0].title) && c.ids == AllIds(ms) && MergeOf(ms, c.lead)
  }

  lemma RestatesIff(ms: seq<Hypothesis>, c: Cluster, h: Hypothesis)
    requires Keeps(ms, c)
    ensures Restates(c, h) <==> SameAs(ms, h)
  {
    hide TitleTokens, EvidenceIds, MergeOf, Overlap, Similar;
    OverlapIsSimilar(c.tokens, TitleTokens(h.title));
    var e := EvidenceIds(h.evidence);
    if c.ids * e != {} {
      var x :| x in c.ids * e;
      AllIdsAre(ms, x);
      assert ShareId(ms, h);
    }
    if i, x :| 0 <= i < |ms| && x in EvidenceIds(ms[i].evidence) && x in e {
      AllIdsAre(ms, x);
      assert x in c.ids * e;
    }
  }

  lemma {:induction false} FirstsTwice(a: seq<string>, b: seq<string>)
    ensures Firsts(Firsts(a) + b) == Firsts(a + b)
  {
    hide Firsts;
    if b == [] {
      assert Firsts(a) + b == Firsts(a) && a + b == a;
      FirstsOfDistinct(Firsts(a));
    } else {
      var k := |b| - 1;
      FirstsTwice(a, b[..k]);
      assert Firsts(a) + b == Firsts(a) + b[..k] + [b[k]] && a + b == a + b[..k] + [b[k]];
      FirstsPush(Firsts(a) + b[..k], b[k]);
      FirstsPush(a + b[..k], b[k]);
    }
  }

  lemma {:induction false} FirstsOfDistinct(s: seq<string>)
    requires Distinct(s)
    ensures Firsts(s) == s
  {
    if s != [] { FirstsOfDistinct(s[..|s| - 1]); }
  }

  lemma Alone(h: Hypothesis)
    ensures Keeps([h], Cluster(h, TitleTokens(h.title), EvidenceIds(h.evidence)))
  {
    hide TitleTokens, EvidenceIds;
    assert [h][..0] == [];
    assert AllIds([h]) == AllIds([]) + EvidenceIds(h.evidence);
  }

  lemma KeepsMore(ms: seq<Hypothesis>, c: Cluster, h: Hypothesis)
    requires Keeps(ms, c)
    ensures Keeps(ms + [h], Fold(c, h))
  {
    hide TitleTokens, EvidenceIds, Joined, SortedStrings, Firsts;
    var more := ms + [h];
    assert more[..|more| - 1] == ms;
    assert AllIds(more) == AllIds(ms) + EvidenceIds(h.evidence);
    assert AllLenses(more) == AllLenses(ms) + h.lenses;
    FirstsTwice(AllLenses(ms), h.lenses);
    if |ms| == 1 {
      assert ms[..0] == [] && AllLenses(ms) == [] + ms[0].lenses == ms[0].lenses;
    }
  }

  /** Which cluster each hypothesis ended up in. */
  ghost function Owners(hs: seq<Hypothesis>): (r: seq<nat>)
    ensures |r| == |hs|
  {
    if hs == [] then []
    else
      var k := |hs| - 1;
      var kept := Clusters(hs[..k]);
      var at := FirstSame(kept, hs[k]);
      Owners(hs[..k]) + [if at.Some? then at.value else |kept|]
  }

  ghost predicate Partitioned(hs: seq<Hypothesis>) {
    && Dealt(hs, Owners(hs))
    && (forall j :: 0 <= j < |hs| ==> Owners(hs)[j] < |Clusters(hs)|)
    && (forall i: nat :: i < |Clusters(hs)| ==> Keeps(Members(hs, Owners(hs), i), Clusters(hs)[i]))
  }

  lemma OwnersNext(hs: seq<Hypothesis>, h: Hypothesis)
    ensures Owners(hs + [h]) == Owners(hs) +
      [var at := FirstSame(Clusters(hs), h); if at.Some? then at.value else |Clusters(hs)|]
    ensures Clusters(hs + [h]) == Add(Clusters(hs), h)
  {
    assert (hs + [h])[..|hs|] == hs;
  }

  /** Every lead goes to the first cluster it is the same as, and each cluster keeps the merge of its leads. */
  lemma {:induction false} DedupePartitions(hs: seq<Hypothesis>)
    ensures Partitioned(hs)
  {
    if hs != [] {
      var k := |hs| - 1;
      var front, h := hs[..k], hs[k];
      assert hs == front + [h];
      DedupePartitions(front);
      GoesToOwner(front, h);
      DealtNext(front, h);
      KeptNext(front, h);
    }
  }

  lemma GoesToOwner(hs: seq<Hypothesis>, h: Hypothesis)
    requires Partitioned(hs)
    ensures GoesTo(hs, Owners(hs), h, Owners(hs + [h])[|hs|])
  {
    hide Keeps, SameAs, Restates, Owners, Clusters, Add, Dealt;
    OwnersNext(hs, h);
    var was, owners := Clusters(hs), Owners(hs);
    forall i: nat | i < |was|
      ensures Members(hs, owners, i) != [] && (Restates(was[i], h) <==> SameAs(Members(hs, owners, i), h))
    {
      MembersKept(hs, i);
      RestatesIff(Members(hs, owners, i), was[i], h);
    }
  }

  lemma MembersKept(hs: seq<Hypothesis>, i: nat)
    requires Partitioned(hs) && i < |Clusters(hs)|
    ensures Keeps(Members(hs, Owners(hs), i), Clusters(hs)[i]) && Members(hs, Owners(hs), i) != []
  {
    hide MergeOf, Owners, Clusters, Dealt, Members;
    assert Keeps(Members(hs, Owners(hs), i), Clusters(hs)[i]);
  }

  lemma DealtNext(hs: seq<Hypothesis>, h: Hypothesis)
    requires Dealt(hs, Owners(hs)) && GoesTo(hs, Owners(hs), h, Owners(hs + [h])[|hs|])
    ensures Dealt(hs + [h], Owners(hs + [h]))
  {
    hide GoesTo, Clusters, FirstSame, Add;
    OwnersNext(hs, h);
    hide Owners;
    var more, owners := hs + [h], Owners(hs + [h]);
    assert more[..|hs|] == hs && owners[..|hs|] == Owners(hs);
  }

  lemma KeptNext(hs: seq<Hypothesis>, h: Hypothesis)
    requires Partitioned(hs)
    ensures var more := hs + [h];
      && (forall j :: 0 <= j < |more| ==> Owners(more)[j] < |Clusters(more)|)
      && (forall i: nat :: i < |Clusters(more)| ==> Keeps(Members(more, Owners(more), i), Clusters(more)[i]))
  {
    hide Keeps, Fold, Owners, Clusters, Restates, TitleTokens, EvidenceIds, Members;
    OwnersNext(hs, h);
    var was, now := Clusters(hs), Clusters(hs + [h]);
    var owners, at := Owners(hs), Owners(hs + [h])[|hs|];
    assert Owners(hs + [h]) == owners + [at];
    forall i: nat | i < |now| ensures Keeps(Members(hs + [h], owners + [at], i), now[i]) {
      MembersNext(hs, owners, h, at, i);
      if i == |was| {
        assert Members(hs, owners, i) + [h] == [h];
        Alone(h);
      } else {
        MembersKept(hs, i);
        if i == at { KeepsMore(Members(hs, owners, i), was[i], h); }
      }
    }
  }

  /** The ids of a merged lead, read again from its evidence, are those of all its leads. */
  lemma MergedIdsReadBack(ms: seq<Hypothesis>, lead: Hypothesis)
    requires ms != [] && MergeOf(ms, lead)
    ensures EvidenceIds(lead.evidence) == AllIds(ms)
  {
    hide EvidenceIds, SortedStrings, Joined, IsId, Firsts;
    AllIdsAre(ms, "");
    if |ms| == 1 {
      assert AllIds(ms) == AllIds([]) + EvidenceIds(ms[0].evidence) by { assert ms[..0] == []; }
    } else {
      forall x | x in AllIds(ms) ensures IsId(x) {
        AllIdsAre(ms, x);
        var i :| 0 <= i < |ms| && x in EvidenceIds(ms[i].evidence);
        IdsReadAreIds(ms[i].evidence);
      }
      if AllIds(ms) == {} {
        forall x ensures x !in EvidenceIds(ms[0].evidence) { AllIdsAre(ms, x); }
      } else {
        StoredIdsReadBack(AllIds(ms));
      }
    }
  }

  lemma Renamed(ms: seq<Hypothesis>, i: nat, c: Cluster, id: string)
    requires Keeps(ms, c) && id == "H" + Decimal(i + 1)
    ensures IsLead(ms, i, c.lead.(id := id))
  {}

  lemma LeadsAreDeduped(hs: seq<Hypothesis>)
    ensures Deduped(hs, Owners(hs), Leads(Clusters(hs)))
  {
    hide IsLead, Dealt, Clusters;
    DedupePartitions(hs);
    var out := Leads(Clusters(hs));
    forall i: nat | i < |out| ensures IsLead(Members(hs, Owners(hs), i), i, out[i]) { EachLead(hs, i); }
  }

  lemma EachLead(hs: seq<Hypothesis>, i: nat)
    requires Partitioned(hs) && i < |Clusters(hs)|
    ensures IsLead(Members(hs, Owners(hs), i), i, Leads(Clusters(hs))[i])
  {
    hide Owners, Clusters, Dealt, Members, Decimal;
    MembersKept(hs, i);
    var c := Clusters(hs)[i];
    Renamed(Members(hs, Owners(hs), i), i, c, "H" + Decimal(i + 1));
    assert Leads(Clusters(hs))[i] == c.lead.(id := "H" + Decimal(i + 1));
  }

  method DedupeHypotheses(passes: seq<seq<Hypothesis>>) returns (out: seq<Hypothesis>)
    ensures out == Leads(Clusters(Flatten(passes)))
    ensures exists owners :: Deduped(Flatten(passes), owners, out)
  {
    hide Add;
    var kept: seq<Cluster> := [];
    for i := 0 to |passes|
      invariant kept == Clusters(Flatten(passes[..i]))
    {
      FlattenNext(passes, i);
      var pass := passes[i];
      ghost var before := Flatten(passes[..i]);
      assert before + pass[..0] == before;
      for j := 0 to |pass|
        invariant kept == Clusters(before + pass[..j])
      {
        ghost var all := before + pass[..j + 1];
        assert all[..|all| - 1] == before + pass[..j];
        kept := Place(kept, pass[j]);
      }
      assert pass[..|pass|] == pass;
    }
    assert passes[..|passes|] == passes;
    out := Leads(kept);
    LeadsAreDeduped(Flatten(passes));
  }

  /** No two outputs have the same non-empty title tokens. */
  lemma {:induction false} DedupedTitlesDiffer(hs: seq<Hypothesis>, i: nat, j: nat)
    requires i < j < |Clusters(hs)| && Clusters(hs)[i].tokens != {}
    ensures Clusters(hs)[i].tokens != Clusters(hs)[j].tokens
  {
    hide EvidenceIds, TitleTokens, Similar;
    var k := |hs| - 1;
    if j < |Clusters(hs[..k])| { DedupedTitlesDiffer(hs[..k], i, j); }
  }

  /** The outputs are named H1 to Hn, so their ids are distinct. */
  lemma DedupedIdsDiffer(kept: seq<Cluster>, i: nat, j: nat)
    requires i < j < |kept|
    ensures Leads(kept)[i].id != Leads(kept)[j].id
  {
    if Leads(kept)[i].id == Leads(kept)[j].id {
      assert Leads(kept)[i].id[1..] == Decimal(i + 1) && Leads(kept)[j].id[1..] == Decimal(j + 1);
      DecimalInjective(i + 1, j + 1);
    }
  }

  /** Restating is not transitive: the first two restate one lead, the last two too, the outer two do not. */
  lemma SameLeadIsNotTransitive()
    ensures exists ta, ea, tb, eb, tc, ec ::
      SameLead(ta, ea, tb, eb) && SameLead(tb, eb, tc, ec) && !SameLead(ta, ea, tc, ec)
  {
    var ta: set<string>, tb: set<string>, tc: set<string> := {"sql"}, {"sql", "orders"}, {"orders"};
    var e: set<string> := {"chain:1"};
    assert ta * tb == {"sql"} && ta + tb == tb && tb * tc == {"orders"} && tb + tc == tb && ta * tc == {};
    assert e * e == e && "chain:1" in e * e;
    assert |tb| == 2 && |ta * tb| == 1 && |tb * tc| == 1 && |ta * tc| == 0;
    assert "sql" in ta && "sql" !in tc;
    assert SameLead(ta, e, tb, e) && SameLead(tb, e, tc, e) && !SameLead(ta, e, tc, e);
  }
}
