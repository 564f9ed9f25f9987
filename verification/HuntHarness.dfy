/** The hunt: rounds of generation against an arbitrary model, then a majority vote of skeptics
    (src/attackmap/hunt_harness.py). */
module HuntHarness {
  import opened HuntDedupe
  import opened Lists
  import opened Text
  import opened Wrappers

  datatype Verdict = Confirmed | Refuted | NeedsReview

  /** What one skeptic said of each hypothesis it ruled on. */
  type Ballot = map<string, (Verdict, string)>

  // ---- citations ----

  function VerdictName(v: Verdict): string {
    match v
    case Confirmed => "confirmed"
    case Refuted => "refuted"
    case NeedsReview => "needs_review"
  }

  /** A confirmation or refutation that cites nothing becomes a vote for review. */
  function EnforceOne(vote: (Verdict, string), cited: bool): (Verdict, string) {
    if vote.0 != NeedsReview && !cited
    then (NeedsReview, Strip("uncited " + VerdictName(vote.0) + " verdict: " + vote.1))
    else vote
  }

  /** The last hypothesis with this id. */
  function ById(hypotheses: seq<Hypothesis>, id: string): Option<Hypothesis> {
    if hypotheses == [] then None
    else if hypotheses[|hypotheses| - 1].id == id then Some(hypotheses[|hypotheses| - 1])
    else ById(hypotheses[..|hypotheses| - 1], id)
  }

  /** How citations are looked for: whether there are excerpts to cite, and whether a reason names
      one of them or an evidence id of the hypothesis. */
  datatype Citing = Citing(haveExcerpts: bool, cites: (Hypothesis, string) -> bool)

  predicate Cited(c: Citing, hypotheses: seq<Hypothesis>, id: string, reason: string) {
    var h := ById(hypotheses, id);
    !c.haveExcerpts || h.None? || c.cites(h.value, reason)
  }

  function Enforced(c: Citing, hypotheses: seq<Hypothesis>, ballot: Ballot): Ballot {
    map id | id in ballot :: EnforceOne(ballot[id], Cited(c, hypotheses, id, ballot[id].1))
  }

  /** There are excerpts, but the reason names none of them and no evidence of the last hypothesis with the id. */
  ghost predicate Uncited(c: Citing, hypotheses: seq<Hypothesis>, id: string, reason: string) {
    c.haveExcerpts && exists i :: LastWithId(hypotheses, id, i) && !c.cites(hypotheses[i], reason)
  }

  ghost predicate LastWithId(hypotheses: seq<Hypothesis>, id: string, i: int) {
    0 <= i < |hypotheses| && hypotheses[i].id == id && forall j :: i < j < |hypotheses| ==> hypotheses[j].id != id
  }

  /** What becomes of one vote. */
  ghost predicate Enforces(c: Citing, hypotheses: seq<Hypothesis>, id: string, vote: (Verdict, string), kept: (Verdict, string)) {
    if vote.0 != NeedsReview && Uncited(c, hypotheses, id, vote.1)
    then kept == (NeedsReview, Strip("uncited " + (if vote.0 == Confirmed then "confirmed" else "refuted") + " verdict: " + vote.1))
    else kept == vote
  }

  lemma {:induction false} ByIdIsLast(hypotheses: seq<Hypothesis>, id: string) returns (i: int)
    ensures ById(hypotheses, id).Some? ==> LastWithId(hypotheses, id, i) && hypotheses[i] == ById(hypotheses, id).value
    ensures ById(hypotheses, id).None? ==> forall j :: 0 <= j < |hypotheses| ==> hypotheses[j].id != id
  {
    i := |hypotheses| - 1;
    if i >= 0 && hypotheses[i].id != id { i := ByIdIsLast(hypotheses[..i], id); }
  }

  lemma CitedIff(c: Citing, hypotheses: seq<Hypothesis>, id: string, reason: string)
    ensures Cited(c, hypotheses, id, reason) <==> !Uncited(c, hypotheses, id, reason)
  {
    var i := ByIdIsLast(hypotheses, id);
  }

  /** Each ruling that cites nothing becomes a vote for review, and no other vote changes. */
  lemma EnforcedIs(c: Citing, hypotheses: seq<Hypothesis>, ballot: Ballot, id: string)
    requires id in ballot
    ensures Enforces(c, hypotheses, id, ballot[id], Enforced(c, hypotheses, ballot)[id])
  {
    hide Strip, Cited, Uncited;
    CitedIff(c, hypotheses, id, ballot[id].1);
  }

  method EnforceCitations(c: Citing, hypotheses: seq<Hypothesis>, ballot: Ballot) returns (out: Ballot)
    ensures out == Enforced(c, hypotheses, ballot)
    ensures out.Keys == ballot.Keys
    ensures forall id :: id in ballot ==> Enforces(c, hypotheses, id, ballot[id], out[id])
  {
    hide Strip, Enforces;
    forall id | id in ballot ensures Enforces(c, hypotheses, id, ballot[id], Enforced(c, hypotheses, ballot)[id]) {
      EnforcedIs(c, hypotheses, ballot, id);
    }
    if !c.haveExcerpts { return ballot; }
    out := map[];
    var todo := ballot.Keys;
    while todo != {}
      invariant todo <= ballot.Keys
      invariant out == map id | id in ballot && id !in todo :: Enforced(c, hypotheses, ballot)[id]
    {
      var id :| id in todo;
      var h := ById(hypotheses, id);
      var cited := h.None? || c.cites(h.value, ballot[id].1);
      out := out[id := EnforceOne(ballot[id], cited)];
      todo := todo - {id};
    }
  }

  // ---- the vote ----

  datatype Consensus = Consensus(id: string, title: string, verdict: Verdict, confirmed: nat, refuted: nat,
                                 needsReview: nat, reasons: seq<(Verdict, string)>)

  /** What a skeptic's silence or ruling counts as. */
  function VoteOf(ballot: Ballot, id: string): Verdict {
    if id in ballot then ballot[id].0 else Refuted
  }

  function Count(ballots: seq<Ballot>, id: string, v: Verdict): nat {
    if ballots == [] then 0
    else Count(ballots[..|ballots| - 1], id, v) + if VoteOf(ballots[|ballots| - 1], id) == v then 1 else 0
  }

  function Reasons(ballots: seq<Ballot>, id: string): seq<(Verdict, string)> {
    if ballots == [] then []
    else
      var b := ballots[|ballots| - 1];
      Reasons(ballots[..|ballots| - 1], id) + if id in b && b[id].1 != "" then [b[id]] else []
  }

  lemma {:induction false} EveryBallotCounts(ballots: seq<Ballot>, id: string)
    ensures Count(ballots, id, Confirmed) + Count(ballots, id, Refuted) + Count(ballots, id, NeedsReview) == |ballots|
  {
    if ballots != [] { EveryBallotCounts(ballots[..|ballots| - 1], id); }
  }

  /** The verdict of the strict majority among confirmation and review, and refuted otherwise. */
  ghost predicate Decided(c: Consensus, ballots: seq<Ballot>) {
    && c.confirmed == Count(ballots, c.id, Confirmed) && c.refuted == Count(ballots, c.id, Refuted)
    && c.needsReview == Count(ballots, c.id, NeedsReview) && c.reasons == Reasons(ballots, c.id)
    && c.confirmed + c.refuted + c.needsReview == |ballots|
    && (c.verdict == Confirmed <==> 2 * c.confirmed > |ballots|)
    && (c.verdict == NeedsReview <==> 2 * c.needsReview > |ballots|)
  }

  method CombineOne(h: Hypothesis, ballots: seq<Ballot>) returns (c: Consensus)
    ensures c.id == h.id && c.title == h.title && Decided(c, ballots)
  {
    var total := |ballots|;
    var confirmed, refuted, needs := 0, 0, 0;
    var reasons: seq<(Verdict, string)> := [];
    for i := 0 to |ballots|
      invariant confirmed == Count(ballots[..i], h.id, Confirmed) && refuted == Count(ballots[..i], h.id, Refuted)
      invariant needs == Count(ballots[..i], h.id, NeedsReview) && reasons == Reasons(ballots[..i], h.id)
    {
      assert ballots[..i + 1][..i] == ballots[..i];
      if h.id !in ballots[i] {
        refuted := refuted + 1;
      } else {
        var (verdict, reason) := ballots[i][h.id];
        if verdict == Confirmed { confirmed := confirmed + 1; }
        else if verdict == NeedsReview { needs := needs + 1; }
        else { refuted := refuted + 1; }
        if reason != "" { reasons := reasons + [(verdict, reason)]; }
      }
    }
    assert ballots[..|ballots|] == ballots;
    EveryBallotCounts(ballots, h.id);
    var final := if total > 0 && confirmed * 2 > total then Confirmed
                 else if total > 0 && needs * 2 > total then NeedsReview else Refuted;
    c := Consensus(h.id, h.title, final, confirmed, refuted, needs, reasons);
  }

  method CombineVerdicts(hypotheses: seq<Hypothesis>, ballots: seq<Ballot>) returns (out: seq<Consensus>)
    ensures |out| == |hypotheses|
    ensures forall i :: 0 <= i < |out| ==>
      out[i].id == hypotheses[i].id && out[i].title == hypotheses[i].title && Decided(out[i], ballots)
  {
    out := [];
    for i := 0 to |hypotheses|
      invariant |out| == i
      invariant forall j :: 0 <= j < i ==>
        out[j].id == hypotheses[j].id && out[j].title == hypotheses[j].title && Decided(out[j], ballots)
    {
      var c := CombineOne(hypotheses[i], ballots);
      out := out + [c];
    }
  }

  /** The order of the skeptics does not matter to any count. */
  lemma {:induction false} CountIsOrderFree(a: seq<Ballot>, b: seq<Ballot>, id: string, v: Verdict)
    requires multiset(a) == multiset(b)
    ensures Count(a, id, v) == Count(b, id, v)
  {
    if a == [] {
      NoneIn(b);
    } else {
      hide VoteOf;
      var j := LastIn(a, b);
      CountWithout(b, j, id, v);
      CountIsOrderFree(a[..|a| - 1], b[..j] + b[j + 1..], id, v);
    }
  }

  lemma CountWithout(s: seq<Ballot>, j: nat, id: string, v: Verdict)
    requires j < |s|
    ensures Count(s, id, v) == Count(s[..j] + s[j + 1..], id, v) + if VoteOf(s[j], id) == v then 1 else 0
  {
    assert s == s[..j + 1] + s[j + 1..];
    CountOfSum(s[..j], s[j + 1..], id, v);
    CountOfSum(s[..j + 1], s[j + 1..], id, v);
    hide VoteOf;
    assert s[..j + 1][..j] == s[..j];
  }

  lemma {:induction false} CountOfSum(a: seq<Ballot>, b: seq<Ballot>, id: string, v: Verdict)
    ensures Count(a + b, id, v) == Count(a, id, v) + Count(b, id, v)
  {
    if b == [] {
      assert a + b == a;
    } else {
      assert (a + b)[..|a + b| - 1] == a + b[..|b| - 1];
      CountOfSum(a, b[..|b| - 1], id, v);
    }
  }

  // ---- the model, and what its calls cost ----

  datatype Request =
    | Generate(lens: Option<string>, avoid: seq<string>, hint: Option<string>)
    | Critic(leads: seq<Hypothesis>)
    | Skeptic(leads: seq<Hypothesis>)

  /** A reply, its reported output tokens if any, and what its text parses to. */
  datatype Reply = Reply(markdown: string, outputTokens: Option<nat>, hypotheses: seq<Hypothesis>, ballot: Ballot)

  /** An arbitrary model: its reply may depend on how many calls were made before. */
  type Oracle = (nat, Request) -> Reply

  /** Reported tokens, or an estimate from the length of the text when none are. */
  function Cost(r: Reply): (c: nat)
    ensures c >= 1
  {
    if r.outputTokens.Some? && r.outputTokens.value > 0 then r.outputTokens.value
    else if |r.markdown| / 4 > 1 then |r.markdown| / 4 else 1
  }

  function Spent(calls: seq<(Request, Reply)>): (n: nat)
    ensures n >= |calls|
  {
    if calls == [] then 0 else Spent(calls[..|calls| - 1]) + Cost(calls[|calls| - 1].1)
  }

  class Llm {
    const oracle: Oracle
    var calls: seq<(Request, Reply)>
    var outputTokens: nat

    constructor (oracle: Oracle)
      ensures this.oracle == oracle && calls == [] && outputTokens == 0
    {
      this.oracle := oracle;
      calls, outputTokens := [], 0;
    }

    ghost predicate Valid()
      reads this
    {
      outputTokens == Spent(calls)
    }

    /** One call, its usage added up. */
    method Call(req: Request) returns (reply: Reply)
      requires Valid()
      modifies this
      ensures Valid() && reply == oracle(|old(calls)|, req) && calls == old(calls) + [(req, reply)]
    {
      reply := oracle(|calls|, req);
      calls := calls + [(req, reply)];
      var reported := if reply.outputTokens.Some? then reply.outputTokens.value else 0;
      outputTokens := outputTokens + reported;
      if reported == 0 {
        outputTokens := outputTokens + if 1 > |reply.markdown| / 4 then 1 else |reply.markdown| / 4;
      }
    }
  }

  // ---- one round, as a function of what came before ----

  /** The settings of a hunt, and the model it runs against. */
  datatype Hunt = Hunt(oracle: Oracle, lenses: seq<string>, maxRounds: int, dryStreak: int, budget: Option<nat>)

  /** Where a hunt stands between rounds: the calls made, the leads held, the critic's last hint. */
  datatype State = State(calls: seq<(Request, Reply)>, held: seq<Hypothesis>, hint: Option<string>)

  const START := State([], [], None)

  /** One pass per lens, or a single pass without one. */
  function Lenses(lenses: seq<string>): (r: seq<Option<string>>)
    ensures |r| == if |lenses| > 1 then |lenses| else 1
  {
    if |lenses| > 1 then seq(|lenses|, i requires 0 <= i < |lenses| => Some(lenses[i])) else [None]
  }

  function Tagged(hs: seq<Hypothesis>, lens: Option<string>): seq<Hypothesis> {
    if lens.None? then hs else seq(|hs|, i requires 0 <= i < |hs| => hs[i].(lenses := [lens.value]))
  }

  function Titles(hs: seq<Hypothesis>): seq<string> {
    seq(|hs|, i requires 0 <= i < |hs| => hs[i].title)
  }

  function Called(oracle: Oracle, calls: seq<(Request, Reply)>, req: Request): seq<(Request, Reply)> {
    calls + [(req, oracle(|calls|, req))]
  }

  /** The calls after the first `n` generation passes of a round. */
  function Generated(oracle: Oracle, lenses: seq<Option<string>>, calls: seq<(Request, Reply)>,
                     avoid: seq<string>, hint: Option<string>, n: nat): (r: seq<(Request, Reply)>)
    requires n <= |lenses|
    ensures calls <= r && |r| == |calls| + n
  {
    if n == 0 then calls
    else Called(oracle, Generated(oracle, lenses, calls, avoid, hint, n - 1), Generate(lenses[n - 1], avoid, hint))
  }

  /** What the passes that begin at call `start` parse to. */
  function PassesAt(calls: seq<(Request, Reply)>, start: nat, lenses: seq<Option<string>>): (r: seq<seq<Hypothesis>>)
    requires start + |lenses| <= |calls|
    ensures |r| == |lenses|
  {
    seq(|lenses|, i requires 0 <= i < |lenses| => Tagged(calls[start + i].1.hypotheses, lenses[i]))
  }

  predicate OverBudget(budget: Option<nat>, spent: nat) {
    budget.Some? && budget.value > 0 && spent >= budget.value
  }

  function CallsAfterPasses(h: Hunt, s: State): (r: seq<(Request, Reply)>)
    ensures s.calls <= r && |r| == |s.calls| + |Lenses(h.lenses)|
  {
    Generated(h.oracle, Lenses(h.lenses), s.calls, Titles(s.held), s.hint, |Lenses(h.lenses)|)
  }

  /** The leads held after a round: those held before and the round's own, deduplicated. */
  function HeldAfter(h: Hunt, s: State): seq<Hypothesis> {
    Leads(Clusters(s.held + Flatten(PassesAt(CallsAfterPasses(h, s), |s.calls|, Lenses(h.lenses)))))
  }

  /** A critic seeds the next round when the leads grew, there may be a next round, and budget is left. */
  predicate CriticDue(h: Hunt, s: State, last: bool) {
    && |HeldAfter(h, s)| > |s.held| && !last
    && (h.budget.None? || h.budget.value == 0 || Spent(CallsAfterPasses(h, s)) < h.budget.value)
  }

  function AfterRound(h: Hunt, s: State, last: bool): State {
    var calls, held := CallsAfterPasses(h, s), HeldAfter(h, s);
    if CriticDue(h, s, last) then
      State(Called(h.oracle, calls, Critic(held)), held, Some(h.oracle(|calls|, Critic(held)).markdown))
    else State(calls, held, s.hint)
  }

  /** The `n` calls from `from` on: one per lens if there are several, each told what to avoid and the hint. */
  ghost predicate Asked(oracle: Oracle, lenses: seq<string>, calls: seq<(Request, Reply)>, from: nat, n: nat,
                        avoid: seq<string>, hint: Option<string>)
    requires from + n <= |calls|
  {
    forall k :: 0 <= k < n ==> AsksOne(oracle, lenses, calls, from, k, avoid, hint)
  }

  ghost predicate AsksOne(oracle: Oracle, lenses: seq<string>, calls: seq<(Request, Reply)>, from: nat, k: int,
                          avoid: seq<string>, hint: Option<string>)
    requires 0 <= k && from + k < |calls|
  {
    var request := Generate(if 1 < |lenses| && k < |lenses| then Some(lenses[k]) else None, avoid, hint);
    calls[from + k] == (request, oracle(from + k, request))
  }

  /** What one pass found, tagged with its lens if there are several. */
  ghost predicate Finds(lenses: seq<string>, k: int, reply: Reply, pass: seq<Hypothesis>) {
    && |pass| == |reply.hypotheses|
    && if 1 < |lenses| && 0 <= k < |lenses|
       then forall i :: 0 <= i < |pass| ==> pass[i] == reply.hypotheses[i].(lenses := [lenses[k]])
       else pass == reply.hypotheses
  }

  ghost predicate Found(lenses: seq<string>, calls: seq<(Request, Reply)>, from: nat, passes: seq<seq<Hypothesis>>) {
    && |passes| == (if |lenses| > 1 then |lenses| else 1) && from + |passes| <= |calls|
    && forall k :: 0 <= k < |passes| ==> Finds(lenses, k, calls[from + k].1, passes[k])
  }

  lemma {:induction false} GeneratedAsks(oracle: Oracle, lenses: seq<string>, calls: seq<(Request, Reply)>,
                                         avoid: seq<string>, hint: Option<string>, n: nat)
    requires n <= |Lenses(lenses)|
    ensures Asked(oracle, lenses, Generated(oracle, Lenses(lenses), calls, avoid, hint, n), |calls|, n, avoid, hint)
  {
    if n > 0 {
      hide Lenses, AsksOne;
      GeneratedAsks(oracle, lenses, calls, avoid, hint, n - 1);
      LastAsks(oracle, lenses, calls, avoid, hint, n);
      var before, after := Generated(oracle, Lenses(lenses), calls, avoid, hint, n - 1), Generated(oracle, Lenses(lenses), calls, avoid, hint, n);
      AskedEarlier(oracle, lenses, before, after, |calls|, n - 1, avoid, hint);
    }
  }

  lemma LastAsks(oracle: Oracle, lenses: seq<string>, calls: seq<(Request, Reply)>,
                 avoid: seq<string>, hint: Option<string>, n: nat)
    requires 0 < n <= |Lenses(lenses)|
    ensures AsksOne(oracle, lenses, Generated(oracle, Lenses(lenses), calls, avoid, hint, n), |calls|, n - 1, avoid, hint)
  {}

  lemma PassesAreFound(calls: seq<(Request, Reply)>, from: nat, lenses: seq<string>)
    requires from + |Lenses(lenses)| <= |calls|
    ensures Found(lenses, calls, from, PassesAt(calls, from, Lenses(lenses)))
  {}

  method GenerateRound(llm: Llm, lenses: seq<string>, avoid: seq<string>, hint: Option<string>)
    returns (passes: seq<seq<Hypothesis>>)
    requires llm.Valid()
    modifies llm
    ensures llm.Valid()
    ensures llm.calls == Generated(llm.oracle, Lenses(lenses), old(llm.calls), avoid, hint, |Lenses(lenses)|)
    ensures passes == PassesAt(llm.calls, |old(llm.calls)|, Lenses(lenses))
    ensures |llm.calls| == |old(llm.calls)| + (if |lenses| > 1 then |lenses| else 1) && old(llm.calls) <= llm.calls
    ensures Asked(llm.oracle, lenses, llm.calls, |old(llm.calls)|, |llm.calls| - |old(llm.calls)|, avoid, hint)
    ensures Found(lenses, llm.calls, |old(llm.calls)|, passes)
  {
    hide Spent, Tagged, Lenses, Generated;
    passes := [];
    var each := Lenses(lenses);
    ghost var before := llm.calls;
    FirstPass(llm.oracle, each, before, avoid, hint);
    for i := 0 to |each|
      invariant llm.Valid() && |passes| == i
      invariant llm.calls == Generated(llm.oracle, each, before, avoid, hint, i)
      invariant forall k :: 0 <= k < i ==> passes[k] == Tagged(llm.calls[|before| + k].1.hypotheses, each[k])
    {
      ghost var calls := llm.calls;
      NextPass(llm.oracle, each, before, avoid, hint, i);
      var reply := llm.Call(Generate(each[i], avoid, hint));
      assert forall k :: 0 <= k < |calls| ==> llm.calls[k] == calls[k];
      passes := passes + [Tagged(reply.hypotheses, each[i])];
    }
    GeneratedAsks(llm.oracle, lenses, before, avoid, hint, |each|);
    PassesAreFound(llm.calls, |before|, lenses);
  }

  lemma FirstPass(oracle: Oracle, lenses: seq<Option<string>>, calls: seq<(Request, Reply)>, avoid: seq<string>, hint: Option<string>)
    ensures Generated(oracle, lenses, calls, avoid, hint, 0) == calls
  {}

  lemma NextPass(oracle: Oracle, lenses: seq<Option<string>>, calls: seq<(Request, Reply)>, avoid: seq<string>, hint: Option<string>, i: nat)
    requires i < |lenses|
    ensures Generated(oracle, lenses, calls, avoid, hint, i + 1) ==
      Called(oracle, Generated(oracle, lenses, calls, avoid, hint, i), Generate(lenses[i], avoid, hint))
  {}

  lemma {:induction false} FlattenCons<T>(first: seq<T>, rest: seq<seq<T>>)
    ensures Flatten([first] + rest) == first + Flatten(rest)
  {
    var all := [first] + rest;
    if rest == [] {
      assert all == [first] && all[..0] == [];
    } else {
      assert all[..|all| - 1] == [first] + rest[..|rest| - 1];
      FlattenCons(first, rest[..|rest| - 1]);
    }
  }

  method HuntRound(llm: Llm, h: Hunt, s: State, last: bool) returns (t: State)
    requires llm.Valid() && llm.oracle == h.oracle && llm.calls == s.calls
    modifies llm
    ensures llm.Valid() && llm.calls == t.calls && t == AfterRound(h, s, last)
  {
    hide Clusters, Leads, Titles, PassesAt, Flatten, Spent, Generated;
    var passes := GenerateRound(llm, h.lenses, Titles(s.held), s.hint);
    FlattenCons(s.held, passes);
    if s.held == [] { assert s.held + Flatten(passes) == Flatten(passes); }
    var held := DedupeHypotheses(if s.held != [] then [s.held] + passes else passes);
    var hint := s.hint;
    if |held| > |s.held| {
      if !last && !OverBudget(h.budget, llm.outputTokens) && held != [] {
        var reply := llm.Call(Critic(held));
        hint := Some(reply.markdown);
      }
    }
    t := State(llm.calls, held, hint);
  }

  /** The critic was due: the leads grew, another round is allowed, and the passes left some budget. */
  ghost predicate WasDue(h: Hunt, s: State, t: State, n: nat, last: bool)
    requires |s.calls| + n <= |t.calls|
  {
    && |t.held| > |s.held| && !last
    && (h.budget.None? || h.budget.value == 0 || Spent(t.calls[..|s.calls| + n]) < h.budget.value)
  }

  ghost predicate TitlesOf(leads: seq<Hypothesis>, titles: seq<string>) {
    |titles| == |leads| && forall i :: 0 <= i < |titles| ==> titles[i] == leads[i].title
  }

  /** Each pass was told the titles held and the last hint. */
  ghost predicate Primed(h: Hunt, s: State, t: State, n: nat)
    requires |s.calls| + n <= |t.calls|
  {
    exists avoid :: TitlesOf(s.held, avoid) && Asked(h.oracle, h.lenses, t.calls, |s.calls|, n, avoid, s.hint)
  }

  /** What the passes found is deduplicated with what was held. */
  ghost predicate Gathered(h: Hunt, s: State, t: State) {
    exists passes, owners ::
      Found(h.lenses, t.calls, |s.calls|, passes) && Deduped(s.held + Flatten(passes), owners, t.held)
  }

  /** One round from `s` to `t`: a call per pass, told the titles held and the last hint; what they
      found deduplicated with what was held; and a critic of that, if due, whose text is the next hint. */
  ghost predicate IsRound(h: Hunt, s: State, t: State, last: bool) {
    var n := if |h.lenses| > 1 then |h.lenses| else 1;
    && s.calls <= t.calls && |s.calls| + n <= |t.calls|
    && Primed(h, s, t, n)
    && Gathered(h, s, t)
    && if WasDue(h, s, t, n, last) then
         && |t.calls| == |s.calls| + n + 1
         && t.calls[|s.calls| + n].0 == Critic(t.held)
         && t.calls[|s.calls| + n].1 == h.oracle(|s.calls| + n, Critic(t.held))
         && t.hint == Some(t.calls[|s.calls| + n].1.markdown)
       else |t.calls| == |s.calls| + n && t.hint == s.hint
  }

  lemma AskedEarlier(oracle: Oracle, lenses: seq<string>, calls: seq<(Request, Reply)>, more: seq<(Request, Reply)>,
                     from: nat, n: nat, avoid: seq<string>, hint: Option<string>)
    requires from + n <= |calls| && calls <= more && Asked(oracle, lenses, calls, from, n, avoid, hint)
    ensures Asked(oracle, lenses, more, from, n, avoid, hint)
  {
    forall k | 0 <= k < n ensures AsksOne(oracle, lenses, more, from, k, avoid, hint) {
      assert AsksOne(oracle, lenses, calls, from, k, avoid, hint);
    }
  }

  lemma FoundEarlier(lenses: seq<string>, calls: seq<(Request, Reply)>, more: seq<(Request, Reply)>, from: nat, passes: seq<seq<Hypothesis>>)
    requires calls <= more && Found(lenses, calls, from, passes)
    ensures Found(lenses, more, from, passes)
  {}

  /** The rounds of the trace are rounds in that sense. */
  lemma AfterRoundIsRound(h: Hunt, s: State, last: bool)
    ensures IsRound(h, s, AfterRound(h, s, last), last)
  {
    hide HeldAfter, CallsAfterPasses, Spent, Primed, Gathered;
    var t, calls := AfterRound(h, s, last), CallsAfterPasses(h, s);
    assert t.calls[..|calls|] == calls;
    PrimedSo(h, s, t);
    GatheredSo(h, s, t);
  }

  lemma PrimedSo(h: Hunt, s: State, t: State)
    requires CallsAfterPasses(h, s) <= t.calls
    ensures Primed(h, s, t, |Lenses(h.lenses)|)
  {
    hide Generated, Asked, Lenses;
    var calls, n, avoid := CallsAfterPasses(h, s), |Lenses(h.lenses)|, Titles(s.held);
    GeneratedAsks(h.oracle, h.lenses, s.calls, avoid, s.hint, n);
    AskedEarlier(h.oracle, h.lenses, calls, t.calls, |s.calls|, n, avoid, s.hint);
    assert TitlesOf(s.held, avoid);
  }

  lemma GatheredSo(h: Hunt, s: State, t: State)
    requires CallsAfterPasses(h, s) <= t.calls && t.held == HeldAfter(h, s)
    ensures Gathered(h, s, t)
  {
    hide CallsAfterPasses, Found, Deduped, Lenses, Clusters, Leads, PassesAt, Flatten;
    var calls := CallsAfterPasses(h, s);
    var passes := PassesAt(calls, |s.calls|, Lenses(h.lenses));
    PassesAreFound(calls, |s.calls|, h.lenses);
    FoundEarlier(h.lenses, calls, t.calls, |s.calls|, passes);
    LeadsAreDeduped(s.held + Flatten(passes));
  }

  /** The leads of a hunt of one round are what its passes found, deduplicated if there are several. */
  ghost predicate SingleFound(h: Hunt, calls: seq<(Request, Reply)>, passes: seq<seq<Hypothesis>>, leads: seq<Hypothesis>) {
    && Found(h.lenses, calls, 0, passes) && Asked(h.oracle, h.lenses, calls, 0, |passes|, [], None)
    && if |h.lenses| > 1 then exists owners :: Deduped(Flatten(passes), owners, leads) else leads == passes[0]
  }

  lemma SingleRoundIs(h: Hunt)
    ensures exists calls, passes :: SingleFound(h, calls, passes, SingleRound(h))
  {
    hide Generated, Asked, Deduped, Clusters, Leads, PassesAt, Flatten, Finds;
    var lenses := Lenses(h.lenses);
    var calls := Generated(h.oracle, lenses, [], [], None, |lenses|);
    var passes := PassesAt(calls, 0, lenses);
    GeneratedAsks(h.oracle, h.lenses, [], [], None, |lenses|);
    PassesAreFound(calls, 0, h.lenses);
    LeadsAreDeduped(Flatten(passes));
    assert SingleFound(h, calls, passes, SingleRound(h));
  }

  // ---- the rounds of a hunt ----

  /** The states between rounds, each the one before carried through one round. */
  ghost predicate Trace(h: Hunt, states: seq<State>) {
    && states != [] && states[0] == START
    && forall r :: 0 <= r < |states| - 1 ==> Step(h, states, r)
  }

  ghost predicate Step(h: Hunt, states: seq<State>, r: nat)
    requires r + 1 < |states|
  {
    states[r + 1] == AfterRound(h, states[r], r + 1 == h.maxRounds)
  }

  /** Rounds in a row without growth, up to and including the r-th. */
  ghost function DryRun(states: seq<State>, r: nat): nat
    requires r < |states|
  {
    if r == 0 || |states[r].held| > |states[r - 1].held| then 0 else 1 + DryRun(states, r - 1)
  }

  /** Another round may begin: rounds are left, the budget is not spent, and growth has not dried up. */
  ghost predicate MayGoOn(h: Hunt, states: seq<State>, r: nat)
    requires r < |states|
  {
    && r < h.maxRounds
    && (h.budget.None? || h.budget.value == 0 || Spent(states[r].calls) < h.budget.value)
    && !(DryRun(states, r) > 0 && DryRun(states, r) >= h.dryStreak)
  }

  /** The rounds went on exactly as long as they may. */
  ghost predicate RanItsCourse(h: Hunt, states: seq<State>) {
    && Trace(h, states)
    && (forall r :: 0 <= r < |states| - 1 ==> MayGoOn(h, states, r))
    && !MayGoOn(h, states, |states| - 1)
  }

  lemma {:induction false} DryRunOfPrefix(states: seq<State>, next: State, r: nat)
    requires r < |states|
    ensures DryRun(states + [next], r) == DryRun(states, r)
  {
    if r > 0 { DryRunOfPrefix(states, next, r - 1); }
  }

  ghost predicate SoFar(h: Hunt, states: seq<State>) {
    Trace(h, states) && forall r :: 0 <= r < |states| - 1 ==> MayGoOn(h, states, r)
  }

  lemma SoFarNext(h: Hunt, states: seq<State>, next: State)
    requires SoFar(h, states) && MayGoOn(h, states, |states| - 1)
    requires next == AfterRound(h, states[|states| - 1], |states| == h.maxRounds)
    ensures SoFar(h, states + [next])
    ensures DryRun(states + [next], |states|) ==
      if |next.held| > |states[|states| - 1].held| then 0 else 1 + DryRun(states, |states| - 1)
  {
    hide AfterRound, Spent;
    var more := states + [next];
    forall r | 0 <= r < |more| - 1 ensures Step(h, more, r) && MayGoOn(h, more, r) {
      DryRunOfPrefix(states, next, r);
      if r + 1 < |states| { assert Step(h, states, r) && MayGoOn(h, states, r); }
    }
    DryRunOfPrefix(states, next, |states| - 1);
  }

  ghost predicate RoundAt(h: Hunt, states: seq<State>, r: nat)
    requires r + 1 < |states|
  {
    IsRound(h, states[r], states[r + 1], r + 1 == h.maxRounds)
  }

  lemma TraceIsRounds(h: Hunt, states: seq<State>)
    requires Trace(h, states)
    ensures forall r :: 0 <= r < |states| - 1 ==> RoundAt(h, states, r)
  {
    hide AfterRound, IsRound;
    forall r | 0 <= r < |states| - 1 ensures RoundAt(h, states, r) {
      assert Step(h, states, r);
      AfterRoundIsRound(h, states[r], r + 1 == h.maxRounds);
    }
  }

  /** Generation in rounds, each seeded by a critic of the leads so far. */
  method HuntRounds(llm: Llm, h: Hunt) returns (leads: seq<Hypothesis>, roundsRun: nat, ghost states: seq<State>)
    requires llm.Valid() && llm.calls == [] && llm.oracle == h.oracle && h.maxRounds > 1
    modifies llm
    ensures llm.Valid() && RanItsCourse(h, states) && roundsRun == |states| - 1
    ensures states[roundsRun].calls == llm.calls && states[roundsRun].held == leads
    ensures forall r :: 0 <= r < roundsRun ==> RoundAt(h, states, r)
  {
    hide AfterRound, Trace, Spent, RoundAt;
    var s := START;
    states := [s];
    roundsRun := 0;
    var dry: nat := 0;
    assert SoFar(h, states) by { StartsSoFar(h); }
    while roundsRun < h.maxRounds
      invariant llm.Valid() && llm.calls == s.calls && roundsRun == |states| - 1 <= h.maxRounds
      invariant states[roundsRun] == s && SoFar(h, states) && dry == DryRun(states, roundsRun)
      invariant dry == 0 || dry < h.dryStreak
    {
      if OverBudget(h.budget, llm.outputTokens) { break; }
      var held := s.held;
      roundsRun := roundsRun + 1;
      s := HuntRound(llm, h, s, roundsRun == h.maxRounds);
      SoFarNext(h, states, s);
      states := states + [s];
      if |s.held| <= |held| {
        dry := dry + 1;
        if dry >= h.dryStreak { break; }
      } else {
        dry := 0;
      }
    }
    leads := s.held;
    TraceIsRounds(h, states);
  }

  lemma StartsSoFar(h: Hunt)
    ensures SoFar(h, [START])
  {}

  // ---- what bounds a hunt ----

  lemma CallsOfRound(h: Hunt, s: State, last: bool)
    ensures |s.calls| + |Lenses(h.lenses)| <= |AfterRound(h, s, last).calls|
    ensures |AfterRound(h, s, last).calls| <= |s.calls| + |Lenses(h.lenses)| + if last then 0 else 1
  {
    hide HeldAfter, Spent, Lenses;
    assert CriticDue(h, s, last) ==> !last;
  }

  lemma {:induction false} CallsByRound(h: Hunt, states: seq<State>, r: nat)
    requires Trace(h, states) && r < |states| && r <= h.maxRounds
    ensures r <= |states[r].calls|
    ensures |states[r].calls| <= r * |Lenses(h.lenses)| + (if r > 0 && r == h.maxRounds then r - 1 else r)
  {
    hide AfterRound;
    if r > 0 {
      CallsByRound(h, states, r - 1);
      assert Step(h, states, r - 1);
      CallsOfRound(h, states[r - 1], r == h.maxRounds);
      assert r * |Lenses(h.lenses)| == (r - 1) * |Lenses(h.lenses)| + |Lenses(h.lenses)|;
    }
  }

  /** Whatever the model replies: at most maxRounds rounds, at most one per token of a positive
      budget, and at most one call per lens and round plus a critic between rounds. */
  lemma HuntIsBounded(h: Hunt, states: seq<State>)
    requires RanItsCourse(h, states) && h.maxRounds > 0
    ensures |states| - 1 <= h.maxRounds
    ensures h.budget.Some? && h.budget.value > 0 ==> |states| - 1 <= h.budget.value
    ensures |states[|states| - 1].calls| <= h.maxRounds * |Lenses(h.lenses)| + (h.maxRounds - 1)
  {
    hide AfterRound;
    var n := |states| - 1;
    if n > 0 {
      assert MayGoOn(h, states, n - 1);
      CallsByRound(h, states, n - 1);
    }
    CallsByRound(h, states, n);
    Wider(n, h.maxRounds, |Lenses(h.lenses)|);
  }

  /** No round begins once a positive budget is spent, or after dryStreak rounds in a row that
      found nothing new. */
  lemma NoRoundTooMany(h: Hunt, states: seq<State>, r: nat)
    requires RanItsCourse(h, states) && r < |states|
    requires (h.budget.Some? && 0 < h.budget.value <= Spent(states[r].calls))
          || (r >= h.dryStreak > 0 && forall k :: r - h.dryStreak <= k < r ==> |states[k + 1].held| <= |states[k].held|)
    ensures r == |states| - 1
  {
    hide AfterRound, Spent;
    if r < |states| - 1 {
      assert MayGoOn(h, states, r);
      DryFor(states, r, h.dryStreak);
      assert false;
    }
  }

  lemma {:induction false} DryFor(states: seq<State>, r: nat, n: int)
    requires r < |states|
    ensures r >= n > 0 && (forall k :: r - n <= k < r ==> |states[k + 1].held| <= |states[k].held|) ==> DryRun(states, r) >= n
  {
    if r >= n > 1 { DryFor(states, r - 1, n - 1); }
  }

  // ---- the whole hunt ----

  /** A skeptic's ballot on the leads: votes on unknown ids ignored, uncited ones downgraded. */
  function BallotOf(c: Citing, leads: seq<Hypothesis>, reply: Reply): Ballot {
    Enforced(c, leads, map id | id in reply.ballot && ById(leads, id).Some? :: reply.ballot[id])
  }

  /** This skeptic confirms `id` with a reason that cites something. */
  ghost predicate Confirms(c: Citing, leads: seq<Hypothesis>, reply: Reply, id: string) {
    id in reply.ballot && reply.ballot[id].0 == Confirmed && !Uncited(c, leads, id, reply.ballot[id].1)
  }

  /** This skeptic leaves `id` to review, or rules on it without citing anything. */
  ghost predicate Leaves(c: Citing, leads: seq<Hypothesis>, reply: Reply, id: string) {
    id in reply.ballot && (reply.ballot[id].0 == NeedsReview || Uncited(c, leads, id, reply.ballot[id].1))
  }

  ghost function Confirming(c: Citing, leads: seq<Hypothesis>, replies: seq<Reply>, id: string): set<nat> {
    set k: nat | k < |replies| && Confirms(c, leads, replies[k], id)
  }

  ghost function Unsettled(c: Citing, leads: seq<Hypothesis>, replies: seq<Reply>, id: string): set<nat> {
    set k: nat | k < |replies| && Leaves(c, leads, replies[k], id)
  }

  function Ballots(c: Citing, leads: seq<Hypothesis>, replies: seq<Reply>): (r: seq<Ballot>)
    ensures |r| == |replies| && forall i :: 0 <= i < |r| ==> r[i] == BallotOf(c, leads, replies[i])
  {
    seq(|replies|, i requires 0 <= i < |replies| => BallotOf(c, leads, replies[i]))
  }

  lemma OneVote(c: Citing, leads: seq<Hypothesis>, reply: Reply, id: string)
    requires ById(leads, id).Some?
    ensures VoteOf(BallotOf(c, leads, reply), id) == Confirmed <==> Confirms(c, leads, reply, id)
    ensures VoteOf(BallotOf(c, leads, reply), id) == NeedsReview <==> Leaves(c, leads, reply, id)
  {
    hide Strip, Uncited, Cited;
    if id in reply.ballot { CitedIff(c, leads, id, reply.ballot[id].1); }
  }

  /** Whatever the skeptics reply, the confirmations counted are those that cite something, and the
      uncited rulings count with the votes for review. */
  lemma {:induction false} VotesAreCited(c: Citing, leads: seq<Hypothesis>, replies: seq<Reply>, id: string)
    requires ById(leads, id).Some?
    ensures Count(Ballots(c, leads, replies), id, Confirmed) == |Confirming(c, leads, replies, id)|
    ensures Count(Ballots(c, leads, replies), id, NeedsReview) == |Unsettled(c, leads, replies, id)|
  {
    hide BallotOf, VoteOf, Confirms, Leaves, ById;
    hide Confirming, Unsettled;
    NoVotes(c, leads, id);
    if replies != [] {
      var k := |replies| - 1;
      VotesAreCited(c, leads, replies[..k], id);
      assert Ballots(c, leads, replies)[..k] == Ballots(c, leads, replies[..k]);
      OneVote(c, leads, replies[k], id);
      ConfirmingNext(c, leads, replies, id);
      UnsettledNext(c, leads, replies, id);
    }
  }

  lemma NoVotes(c: Citing, leads: seq<Hypothesis>, id: string)
    ensures Confirming(c, leads, [], id) == {} && Unsettled(c, leads, [], id) == {}
  {}

  lemma ConfirmingNext(c: Citing, leads: seq<Hypothesis>, replies: seq<Reply>, id: string)
    requires replies != []
    ensures var k := |replies| - 1;
      |Confirming(c, leads, replies, id)| ==
      |Confirming(c, leads, replies[..k], id)| + if Confirms(c, leads, replies[k], id) then 1 else 0
  {
    hide Confirms;
    var k := |replies| - 1;
    assert Confirming(c, leads, replies, id) ==
      Confirming(c, leads, replies[..k], id) + if Confirms(c, leads, replies[k], id) then {k} else {};
  }

  lemma UnsettledNext(c: Citing, leads: seq<Hypothesis>, replies: seq<Reply>, id: string)
    requires replies != []
    ensures var k := |replies| - 1;
      |Unsettled(c, leads, replies, id)| ==
      |Unsettled(c, leads, replies[..k], id)| + if Leaves(c, leads, replies[k], id) then 1 else 0
  {
    hide Leaves;
    var k := |replies| - 1;
    assert Unsettled(c, leads, replies, id) ==
      Unsettled(c, leads, replies[..k], id) + if Leaves(c, leads, replies[k], id) then {k} else {};
  }

  lemma {:induction false} LeadHasId(leads: seq<Hypothesis>, i: nat)
    requires i < |leads|
    ensures ById(leads, leads[i].id).Some?
  {
    if i < |leads| - 1 { LeadHasId(leads[..|leads| - 1], i); }
  }

  function Replies(calls: seq<(Request, Reply)>): (r: seq<Reply>)
    ensures |r| == |calls| && forall i :: 0 <= i < |r| ==> r[i] == calls[i].1
  {
    seq(|calls|, i requires 0 <= i < |calls| => calls[i].1)
  }

  /** From call `from` on, only skeptics of these leads were asked. */
  ghost predicate SkepticsOnly(oracle: Oracle, leads: seq<Hypothesis>, calls: seq<(Request, Reply)>, from: nat) {
    forall k :: from <= k < |calls| ==> calls[k] == (Skeptic(leads), oracle(k, Skeptic(leads)))
  }

  lemma NextBallot(c: Citing, leads: seq<Hypothesis>, calls: seq<(Request, Reply)>, from: nat, call: (Request, Reply))
    requires from <= |calls|
    ensures Ballots(c, leads, Replies((calls + [call])[from..])) ==
      Ballots(c, leads, Replies(calls[from..])) + [BallotOf(c, leads, call.1)]
  {
    hide BallotOf;
    assert (calls + [call])[from..] == calls[from..] + [call];
  }

  lemma NoBallots(c: Citing, leads: seq<Hypothesis>)
    ensures Ballots(c, leads, Replies([])) == []
  {}

  method AskSkeptics(llm: Llm, c: Citing, leads: seq<Hypothesis>, votes: nat) returns (ballots: seq<Ballot>)
    requires llm.Valid()
    modifies llm
    ensures llm.Valid() && old(llm.calls) <= llm.calls && |llm.calls| == |old(llm.calls)| + votes
    ensures SkepticsOnly(llm.oracle, leads, llm.calls, |old(llm.calls)|)
    ensures ballots == Ballots(c, leads, Replies(llm.calls[|old(llm.calls)|..]))
  {
    hide Enforced, Enforces, ById, Ballots, Replies;
    ballots := [];
    assert Ballots(c, leads, Replies([])) == [] by { NoBallots(c, leads); }
    for i := 0 to votes
      invariant llm.Valid() && old(llm.calls) <= llm.calls && |llm.calls| == |old(llm.calls)| + i
      invariant SkepticsOnly(llm.oracle, leads, llm.calls, |old(llm.calls)|)
      invariant ballots == Ballots(c, leads, Replies(llm.calls[|old(llm.calls)|..]))
    {
      NextBallot(c, leads, llm.calls, |old(llm.calls)|, (Skeptic(leads), llm.oracle(|llm.calls|, Skeptic(leads))));
      var reply := llm.Call(Skeptic(leads));
      var ballot := EnforceCitations(c, leads, map id | id in reply.ballot && ById(leads, id).Some? :: reply.ballot[id]);
      ballots := ballots + [ballot];
    }
  }

  /** The leads of a hunt of one round: one pass as it is, several passes deduplicated. */
  ghost function SingleRound(h: Hunt): seq<Hypothesis> {
    var lenses := Lenses(h.lenses);
    var passes := PassesAt(Generated(h.oracle, lenses, [], [], None, |lenses|), 0, lenses);
    if |h.lenses| > 1 then Leads(Clusters(Flatten(passes))) else passes[0]
  }

  /** Confirmed, or left to review, if and only if more than half the votes say so; else refuted. */
  ghost predicate Adjudicated(c: Citing, leads: seq<Hypothesis>, replies: seq<Reply>, verdict: Consensus, votes: nat) {
    && verdict.confirmed == |Confirming(c, leads, replies, verdict.id)|
    && verdict.needsReview == |Unsettled(c, leads, replies, verdict.id)|
    && verdict.refuted == votes - verdict.confirmed - verdict.needsReview
    && verdict.verdict == if 2 * verdict.confirmed > votes then Confirmed
                          else if 2 * verdict.needsReview > votes then NeedsReview else Refuted
  }

  /** Generation, by rounds when there may be several, then the vote on what was found. */
  method RunMajorityVerify(llm: Llm, c: Citing, h: Hunt, votes: nat)
    returns (leads: seq<Hypothesis>, roundsRun: nat, consensus: seq<Consensus>, ghost replies: seq<Reply>)
    requires llm.Valid() && llm.calls == [] && llm.oracle == h.oracle
    modifies llm
    ensures roundsRun <= if h.maxRounds > 1 then h.maxRounds else 1
    ensures h.maxRounds > 1 && h.budget.Some? && h.budget.value > 0 ==> roundsRun <= h.budget.value
    ensures |llm.calls| <= votes +
      if h.maxRounds > 1 then h.maxRounds * |Lenses(h.lenses)| + (h.maxRounds - 1) else |Lenses(h.lenses)|
    ensures if h.maxRounds > 1 then exists states: seq<State> ::
              RanItsCourse(h, states) && roundsRun == |states| - 1 && leads == states[roundsRun].held
            else leads == SingleRound(h)
    ensures |consensus| == |leads| && |replies| == (if leads == [] then 0 else votes)
    ensures |replies| <= |llm.calls| && replies == Replies(llm.calls[|llm.calls| - |replies|..])
    ensures forall i :: 0 <= i < |consensus| ==>
      && consensus[i].id == leads[i].id && consensus[i].title == leads[i].title
      && Decided(consensus[i], Ballots(c, leads, replies))
      && Adjudicated(c, leads, replies, consensus[i], votes)
    ensures SkepticsOnly(h.oracle, leads, llm.calls, |llm.calls| - |replies|)
  {
    hide Decided, Ballots, Adjudicated, BallotOf, Asked, Found, Deduped, Lenses, RanItsCourse, Clusters, Leads, Spent, Generated, PassesAt, Flatten, Cited;
    consensus, replies := [], [];
    if h.maxRounds > 1 {
      ghost var states;
      leads, roundsRun, states := HuntRounds(llm, h);
      HuntIsBounded(h, states);
    } else {
      roundsRun := 1;
      var passes := GenerateRound(llm, h.lenses, [], None);
      if |h.lenses| > 1 {
        leads := DedupeHypotheses(passes);
      } else {
        leads := passes[0];
      }
    }
    if leads == [] { return; }
    ghost var generated := llm.calls;
    var ballots := AskSkeptics(llm, c, leads, votes);
    replies := Replies(llm.calls[|generated|..]);
    consensus := CombineVerdicts(leads, ballots);
    forall i | 0 <= i < |consensus|
      ensures Adjudicated(c, leads, replies, consensus[i], votes)
    {
      LeadHasId(leads, i);
      MajorityOf(c, leads, replies, consensus[i]);
    }
  }

  lemma Wider(rounds: nat, most: nat, width: nat)
    requires rounds <= most
    ensures rounds * width <= most * width
  {}

  lemma MajorityOf(c: Citing, leads: seq<Hypothesis>, replies: seq<Reply>, verdict: Consensus)
    requires Decided(verdict, Ballots(c, leads, replies)) && ById(leads, verdict.id).Some?
    ensures Adjudicated(c, leads, replies, verdict, |replies|)
  {
    hide Confirming, Unsettled, BallotOf;
    VotesAreCited(c, leads, replies, verdict.id);
  }
}
