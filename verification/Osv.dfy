/** The advisory server as the lookup sees it: requests, answers, and the calls made so far
    (src/attackmap/cve.py). */
module Osv {
  import opened Wrappers

  /** A full advisory record; `id` is "" when the record has no usable id. */
  datatype Entry = Entry(id: string, rest: string)

  datatype Query = Query(ecosystem: string, name: string, version: string)

  datatype Request =
    | Batch(queries: seq<Query>)
    | Page(query: Query, token: Option<string>)
    | Detail(id: string)

  /** One package's part of a batch answer: the ids listed for it, and whether the list goes on. */
  datatype Item = NotADict | Listing(refs: seq<string>, more: bool)

  datatype Response =
    | Unreachable
    | Garbled
    | WrongShape
    | Results(items: seq<Item>)
    | PageOf(vulns: seq<Entry>, next: Option<string>)
    | Record(entry: Entry)

  /** An arbitrary server: its answer may depend on how many calls were made before. */
  type Server = (nat, Request) -> Response

  datatype Exchange = Exchange(req: Request, resp: Response)

  /** The answer the request asks for. */
  predicate Answered(e: Exchange) {
    match e.req
    case Batch(queries) => e.resp.Results? && |e.resp.items| == |queries|
    case Page(_, _) => e.resp.PageOf?
    case Detail(_) => e.resp.Record?
  }

  /** What an exchange adds to `network_errors`: nothing for a detail record of the wrong shape. */
  function ErrorOf(e: Exchange): nat {
    if Answered(e) || (e.req.Detail? && !e.resp.Unreachable? && !e.resp.Garbled?) then 0 else 1
  }

  function Errors(log: seq<Exchange>): nat {
    if log == [] then 0 else Errors(log[..|log| - 1]) + ErrorOf(log[|log| - 1])
  }

  class Wire {
    const server: Server
    var log: seq<Exchange>

    constructor (server: Server)
      ensures this.server == server && log == []
    {
      this.server := server;
      log := [];
    }

    /** Every answer in the log is the server's. */
    ghost predicate Faithful()
      reads this
    {
      FromServer(server, log)
    }

    method Send(req: Request) returns (resp: Response)
      requires Faithful()
      modifies this
      ensures Faithful() && resp == server(|old(log)|, req) && log == old(log) + [Exchange(req, resp)]
    {
      resp := server(|log|, req);
      log := log + [Exchange(req, resp)];
    }
  }

  ghost predicate FromServer(server: Server, log: seq<Exchange>) {
    forall k :: 0 <= k < |log| ==> log[k].resp == server(k, log[k].req)
  }

  /** How many more pages a listing may go on for, from a call and a page token on. */
  type PagesLeft = (nat, Query, Option<string>) -> nat

  /** Every listing ends: whatever call it is asked for at, each page announced leaves fewer to come. */
  ghost predicate FinitelyPaged(server: Server, left: PagesLeft) {
    forall n: nat, q: Query, t: Option<string> :: GoesOn(server, n, q, t) ==>
      left(n + 1, q, server(n, Page(q, t)).next) < left(n, q, t)
  }

  predicate GoesOn(server: Server, n: nat, q: Query, t: Option<string>) {
    server(n, Page(q, t)).PageOf? && server(n, Page(q, t)).next.Some?
  }

  // ---- what the server said ----

  function NonEmpty(ids: seq<string>): seq<string> {
    if ids == [] then []
    else if ids[|ids| - 1] == "" then NonEmpty(ids[..|ids| - 1])
    else NonEmpty(ids[..|ids| - 1]) + [ids[|ids| - 1]]
  }

  ghost predicate Fetched(log: seq<Exchange>, id: string, e: Entry) {
    Exchange(Detail(id), Record(e)) in log
  }

  /** `payload` is the record the server gave for each non-empty id listed, in order. */
  ghost predicate Covers(log: seq<Exchange>, refs: seq<string>, payload: seq<Entry>) {
    var ids := NonEmpty(refs);
    |payload| == |ids| && forall j :: 0 <= j < |ids| ==> Fetched(log, ids[j], payload[j])
  }

  /** The n exchanges from `a` are the pages of `q` from the first on, all but the last continued. */
  ghost predicate PagesFrom(log: seq<Exchange>, a: nat, n: nat, q: Query) {
    a + n <= |log| && forall i :: a <= i < a + n ==> PageAt(log, a, i, q)
  }

  ghost predicate PageAt(log: seq<Exchange>, a: nat, i: nat, q: Query)
    requires a <= i < |log|
  {
    && log[i].resp.PageOf?
    && (i == a ==> log[i].req == Page(q, None))
    && (i > a ==> log[i - 1].resp.PageOf? && log[i - 1].resp.next.Some? && log[i].req == Page(q, log[i - 1].resp.next))
  }

  ghost function Gathered(log: seq<Exchange>, a: nat, n: nat): seq<Entry>
    requires a + n <= |log|
  {
    if n == 0 then []
    else Gathered(log, a, n - 1) + if log[a + n - 1].resp.PageOf? then log[a + n - 1].resp.vulns else []
  }

  /** `payload` is everything on all pages of `q`, up to the one that announces no other. */
  ghost predicate AllPages(log: seq<Exchange>, a: nat, n: nat, q: Query, payload: seq<Entry>) {
    && n > 0 && PagesFrom(log, a, n, q)
    && log[a + n - 1].resp.PageOf? && log[a + n - 1].resp.next.None?
    && payload == Gathered(log, a, n)
  }

  ghost predicate ItemAt(log: seq<Exchange>, k: nat, i: nat, q: Query) {
    && k < |log| && log[k].req.Batch? && Answered(log[k])
    && i < |log[k].req.queries| && log[k].req.queries[i] == q
  }

  /** `payload` holds everything one answer of the server said about `q`. */
  ghost predicate Complete(log: seq<Exchange>, q: Query, payload: seq<Entry>) {
    exists k: nat, i: nat :: ItemAt(log, k, i, q) && CompleteFor(log, k, i, q, payload)
  }

  ghost predicate CompleteFor(log: seq<Exchange>, k: nat, i: nat, q: Query, payload: seq<Entry>)
    requires ItemAt(log, k, i, q)
  {
    match log[k].resp.items[i]
    case NotADict => payload == []
    case Listing(refs, more) =>
      if more then exists a: nat, n: nat :: AllPages(log, a, n, q, payload)
      else Covers(log, refs, payload)
  }

  /** The j-th call failed, and it was about `q`: the batch asked for it, a page of it after a listing
      that goes on, or a record its listing names. */
  ghost predicate FailedAt(log: seq<Exchange>, q: Query, j: nat) {
    && j < |log| && !Answered(log[j])
    && match log[j].req
       case Batch(queries) => q in queries
       case Page(p, _) => p == q && exists k: nat, i: nat :: k < j && GoesOnAt(log, k, i, q)
       case Detail(id) => id != "" && exists k: nat, i: nat :: k < j && NamedAt(log, k, i, q, id)
  }

  ghost predicate GoesOnAt(log: seq<Exchange>, k: nat, i: nat, q: Query) {
    ItemAt(log, k, i, q) && log[k].resp.items[i].Listing? && log[k].resp.items[i].more
  }

  ghost predicate NamedAt(log: seq<Exchange>, k: nat, i: nat, q: Query, id: string) {
    ItemAt(log, k, i, q) && log[k].resp.items[i].Listing? && !log[k].resp.items[i].more && id in log[k].resp.items[i].refs
  }

  lemma FailedAtGrows(log: seq<Exchange>, more: seq<Exchange>, q: Query, j: nat)
    requires log <= more && FailedAt(log, q, j)
    ensures FailedAt(more, q, j) && more[j] == log[j]
  {
    if log[j].req.Page? {
      var k: nat, i: nat :| k < j && GoesOnAt(log, k, i, q);
      assert GoesOnAt(more, k, i, q);
    } else if log[j].req.Detail? {
      var k: nat, i: nat :| k < j && NamedAt(log, k, i, q, log[j].req.id);
      assert NamedAt(more, k, i, q, log[j].req.id);
    }
  }

  // ---- how many calls ----

  function Batches(log: seq<Exchange>): nat {
    if log == [] then 0 else Batches(log[..|log| - 1]) + if log[|log| - 1].req.Batch? then 1 else 0
  }

  lemma {:induction false} NoNewBatches(log: seq<Exchange>, more: seq<Exchange>)
    requires log <= more && forall k :: |log| <= k < |more| ==> !more[k].req.Batch?
    ensures Batches(more) == Batches(log)
  {
    if |log| == |more| {
      assert log == more;
    } else {
      NoNewBatches(log, more[..|more| - 1]);
    }
  }

  /** Every record received is remembered, and none is asked for again. */
  ghost predicate Economical(log: seq<Exchange>, memo: map<string, Entry>) {
    && (forall k :: 0 <= k < |log| && log[k].req.Detail? && Answered(log[k]) ==> log[k].req.id in memo)
    && NoRecordTwice(log)
  }

  /** No record that was received is asked for again. */
  ghost predicate NoRecordTwice(log: seq<Exchange>) {
    forall j, k :: 0 <= j < k < |log| && log[j].req.Detail? && log[k].req == log[j].req ==> !Answered(log[j])
  }

  lemma AtMostOnce(log: seq<Exchange>, memo: map<string, Entry>)
    requires Economical(log, memo)
    ensures NoRecordTwice(log)
  {}

  lemma EconomicalGrows(log: seq<Exchange>, more: seq<Exchange>, memo: map<string, Entry>)
    requires log <= more && Economical(log, memo)
    requires forall k :: |log| <= k < |more| ==> !more[k].req.Detail?
    ensures Economical(more, memo)
  {
    assert forall k :: 0 <= k < |log| ==> more[k] == log[k];
  }

  // ---- the log only grows ----

  lemma {:induction false} GatheredGrows(log: seq<Exchange>, more: seq<Exchange>, a: nat, n: nat)
    requires log <= more && a + n <= |log|
    ensures Gathered(more, a, n) == Gathered(log, a, n)
  {
    if n > 0 { GatheredGrows(log, more, a, n - 1); }
  }

  lemma AllPagesGrows(log: seq<Exchange>, more: seq<Exchange>, a: nat, n: nat, q: Query, payload: seq<Entry>)
    requires log <= more && AllPages(log, a, n, q, payload)
    ensures AllPages(more, a, n, q, payload)
  {
    GatheredGrows(log, more, a, n);
    forall i | a <= i < a + n ensures PageAt(more, a, i, q) { assert PageAt(log, a, i, q); }
    assert PageAt(log, a, a + n - 1, q);
  }

  lemma CompleteGrows(log: seq<Exchange>, more: seq<Exchange>, q: Query, payload: seq<Entry>)
    requires log <= more && Complete(log, q, payload)
    ensures Complete(more, q, payload)
  {
    var k: nat, i: nat :| ItemAt(log, k, i, q) && CompleteFor(log, k, i, q, payload);
    assert ItemAt(more, k, i, q);
    assert CompleteFor(more, k, i, q, payload) by {
      match log[k].resp.items[i]
      case NotADict =>
      case Listing(refs, goesOn) =>
        if goesOn {
          var a: nat, n: nat :| AllPages(log, a, n, q, payload);
          AllPagesGrows(log, more, a, n, q, payload);
        } else {
          forall j | 0 <= j < |payload| ensures Fetched(more, NonEmpty(refs)[j], payload[j]) {
            assert Fetched(log, NonEmpty(refs)[j], payload[j]);
          }
        }
    }
  }

  // ---- an honest server ----

  /** What an honest server knows: the ids it lists for a package, the record of each id, and what
      is still to come after a page token. */
  datatype World = World(listing: Query -> seq<string>, record: string -> Entry, rest: (Query, Option<string>) -> seq<Entry>) {
    ghost function Records(ids: seq<string>): (r: seq<Entry>)
      ensures |r| == |ids| && forall i :: 0 <= i < |r| ==> r[i] == record(ids[i])
    {
      seq(|ids|, i requires 0 <= i < |ids| => record(ids[i]))
    }

    /** All advisories of a package. */
    ghost function Advisories(q: Query): seq<Entry> {
      Records(NonEmpty(listing(q)))
    }

    /** The answer to each request is the truth: the whole listing or a promise of more, the
        record itself, or a page and what is left after it. */
    ghost predicate True(req: Request, resp: Response) {
      && Answered(Exchange(req, resp))
      && match req
         case Batch(queries) =>
           forall i :: 0 <= i < |queries| ==> TrueItem(queries[i], resp.items[i])
         case Detail(id) => resp.entry == record(id)
         case Page(q, token) =>
           rest(q, token) == resp.vulns + if resp.next.Some? then rest(q, resp.next) else []
    }

    ghost predicate TrueItem(q: Query, item: Item) {
      item.Listing? && (!item.more ==> item.refs == listing(q))
    }

    ghost predicate Honest(server: Server) {
      && (forall n: nat, req: Request :: True(req, server(n, req)))
      && (forall q: Query :: rest(q, None) == Advisories(q))
      && (forall id: string :: id != "" ==> record(id).id == id)
    }
  }

  /** An honest server that lists in full, or one advisory a page. */
  datatype Speaker = Speaker(listing: Query -> seq<string>, record: string -> Entry, paged: bool) {
    ghost function Bare(): World { World(listing, record, (q, t) => []) }

    /** Where in the advisories a page token stands. */
    ghost function From(q: Query, t: Option<string>): nat {
      var all := |Bare().Advisories(q)|;
      if t.None? then 0 else if |t.value| < all then |t.value| else all
    }

    ghost function Rest(q: Query, t: Option<string>): seq<Entry> { Bare().Advisories(q)[From(q, t)..] }

    ghost function Knows(): World { World(listing, record, (q, t) => Rest(q, t)) }

    ghost function PageAfter(q: Query, t: Option<string>): Response {
      var all, k := Bare().Advisories(q), From(q, t);
      if k + 1 < |all| then PageOf([all[k]], Some(Token(k + 1))) else PageOf(all[k..], None)
    }

    ghost function Says(req: Request): Response {
      match req
      case Batch(queries) =>
        Results(seq(|queries|, i requires 0 <= i < |queries| => Listing(if paged then [] else listing(queries[i]), paged)))
      case Detail(id) => Record(record(id))
      case Page(q, token) => PageAfter(q, token)
    }

    ghost function Server(): Server { (n, req) => Says(req) }

    ghost function Left(): PagesLeft { (n, q, t) => |Bare().Advisories(q)| - From(q, t) }
  }

  function Token(k: nat): (t: string)
    ensures |t| == k
  {
    seq(k, i => 'x')
  }

  /** Whatever advisories there are, some server is honest about them, by either route. */
  lemma HonestServersExist(listing: Query -> seq<string>, record: string -> Entry, paged: bool)
    requires forall id: string :: id != "" ==> record(id).id == id
    ensures
      var s := Speaker(listing, record, paged);
      s.Knows().Honest(s.Server()) && FinitelyPaged(s.Server(), s.Left())
  {
    var s := Speaker(listing, record, paged);
    var w, server := s.Knows(), s.Server();
    forall n: nat, req: Request ensures w.True(req, server(n, req)) {
      assert server(n, req) == s.Says(req);
      SpeaksTrue(s, req);
    }
    forall q: Query ensures w.rest(q, None) == w.Advisories(q) { SameAdvisories(s.Bare(), w, q); }
    forall n: nat, q: Query, t: Option<string> | GoesOn(server, n, q, t)
      ensures s.Left()(n + 1, q, server(n, Page(q, t)).next) < s.Left()(n, q, t)
    {
      assert server(n, Page(q, t)) == s.PageAfter(q, t);
    }
  }

  lemma SpeaksTrue(s: Speaker, req: Request)
    ensures s.Knows().True(req, s.Says(req))
  {
    if req.Page? {
      var q, t := req.query, req.token;
      var all, k := s.Bare().Advisories(q), s.From(q, t);
      if k + 1 < |all| {
        assert all[k..] == [all[k]] + all[k + 1..];
        assert s.From(q, Some(Token(k + 1))) == k + 1;
      }
    }
  }

  lemma SameAdvisories(a: World, b: World, q: Query)
    requires a.listing == b.listing && a.record == b.record
    ensures a.Advisories(q) == b.Advisories(q)
  {}

  lemma {:induction false} NonEmptyIds(ids: seq<string>)
    ensures forall id :: id in NonEmpty(ids) <==> id in ids && id != ""
  {
    if ids != [] {
      NonEmptyIds(ids[..|ids| - 1]);
      assert forall id :: id in ids <==> id in ids[..|ids| - 1] || id == ids[|ids| - 1];
    }
  }

  lemma HonestAnswers(w: World, server: Server, log: seq<Exchange>)
    requires w.Honest(server) && FromServer(server, log)
    ensures forall k :: 0 <= k < |log| ==> Answered(log[k])
    ensures forall k :: 0 <= k < |log| ==> w.True(log[k].req, log[k].resp)
  {
    forall k | 0 <= k < |log| ensures w.True(log[k].req, log[k].resp) && Answered(log[k]) {
      assert w.True(log[k].req, server(k, log[k].req));
    }
  }

  lemma {:induction false} HonestPages(w: World, server: Server, log: seq<Exchange>, a: nat, n: nat, q: Query)
    requires w.Honest(server) && FromServer(server, log) && n > 0 && PagesFrom(log, a, n, q)
    ensures
      var last := log[a + n - 1].resp;
      last.PageOf? &&
      w.Advisories(q) == Gathered(log, a, n) + if last.next.Some? then w.rest(q, last.next) else []
  {
    hide World.Advisories;
    HonestAnswers(w, server, log);
    assert PageAt(log, a, a + n - 1, q);
    assert w.True(log[a + n - 1].req, log[a + n - 1].resp);
    if n > 1 {
      HonestPages(w, server, log, a, n - 1, q);
    } else {
      assert w.rest(q, None) == w.Advisories(q);
      assert Gathered(log, a, 0) == [];
    }
  }

  /** A complete payload from an honest server is the package's advisories, by either route. */
  lemma CompleteIsTrue(w: World, server: Server, log: seq<Exchange>, q: Query, payload: seq<Entry>)
    requires w.Honest(server) && FromServer(server, log) && Complete(log, q, payload)
    ensures payload == w.Advisories(q)
  {
    HonestAnswers(w, server, log);
    var k: nat, i: nat :| ItemAt(log, k, i, q) && CompleteFor(log, k, i, q, payload);
    assert w.True(log[k].req, log[k].resp);
    assert w.TrueItem(q, log[k].resp.items[i]);
    var item := log[k].resp.items[i];
    if item.more {
      var a: nat, n: nat :| AllPages(log, a, n, q, payload);
      HonestPages(w, server, log, a, n, q);
    } else {
      CoveredIsTrue(w, server, log, item.refs, payload);
    }
  }

  lemma CoveredIsTrue(w: World, server: Server, log: seq<Exchange>, refs: seq<string>, payload: seq<Entry>)
    requires w.Honest(server) && FromServer(server, log) && Covers(log, refs, payload)
    ensures payload == w.Records(NonEmpty(refs))
  {
    HonestAnswers(w, server, log);
    var ids := NonEmpty(refs);
    forall j | 0 <= j < |ids| ensures payload[j] == w.record(ids[j]) {
      assert Fetched(log, ids[j], payload[j]);
      var k :| 0 <= k < |log| && log[k] == Exchange(Detail(ids[j]), Record(payload[j]));
      assert w.True(log[k].req, log[k].resp);
    }
  }
}
