/** The client side of a paged query: page validation and the tracker that joins pages into one enumeration. */
module KnowledgeTracker {
  import opened Common
  import opened KnowledgeEvents
  import opened KnowledgeStore
  import opened KnowledgeTraversal

  datatype Error = BadRequest | BadResponse

  datatype Exchange = Exchange(request: QueryRequest, response: Response)

  datatype Scope = Scope(service: string, checkpoint: nat, asOf: int)

  function ScopeOf(response: Response): Scope {
    Scope(response.service, response.checkpoint, response.asOf)
  }

  // ---- One page -----------------------------------------------------------

  predicate RecordShape(r: Record) {
    1 <= r.seqNo <= MAX_SAFE && SafeTime(r.acceptedAt)
  }

  predicate ResponseShape(response: Response) {
    && |response.result| <= 1000 && response.checkpoint <= MAX_SAFE && SafeTime(response.asOf)
    && response.nextCursor != Some("")
    && forall i | 0 <= i < |response.result| :: RecordShape(response.result[i])
  }

  ghost predicate DistinctIds(records: seq<Record>) {
    forall i, j | 0 <= i < j < |records| :: records[i].envelope.hash != records[j].envelope.hash
  }

  /** What a page must be, whoever serves it: verified, distinct, ascending, matching, and within its scope. */
  ghost predicate PageValid(verifies: Envelope -> bool, request: QueryRequest, response: Response, origin: string) {
    var b := BindingOf(request);
    && ResponseShape(response) && response.service == origin && |response.result| <= b.limit
    && DistinctIds(response.result) && Ascending(response.result)
    && forall r | r in response.result ::
         verifies(r.envelope) && b.after < r.seqNo <= response.checkpoint && Matches(r.envelope.event, b.filters)
  }

  method ValidateQueryResponse(verifies: Envelope -> bool, request: QueryRequest, response: Response, origin: string)
    returns (r: Result<(), Error>)
    ensures r == if !RequestValid(request) then Err(BadRequest)
                 else if PageValid(verifies, request, response, origin) then Ok(()) else Err(BadResponse)
  {
    if !RequestValid(request) {
      return Err(BadRequest);
    }
    if !ResponseShape(response) || response.service != origin {
      return Err(BadResponse);
    }
    var sound := CheckRecords(verifies, response.result, response.checkpoint);
    if !sound || |response.result| > request.limit.GetOr(100) {
      return Err(BadResponse);
    }
    var ordered := CheckOrder(response.result, request.filters, request.afterSeq.GetOr(0));
    r := if ordered then Ok(()) else Err(BadResponse);
  }

  method CheckRecords(verifies: Envelope -> bool, records: seq<Record>, checkpoint: nat) returns (ok: bool)
    ensures ok <==> DistinctIds(records) && forall r | r in records :: r.seqNo <= checkpoint && verifies(r.envelope)
  {
    var ids: set<Id> := {};
    for i := 0 to |records|
      invariant ids == set j | 0 <= j < i :: records[j].envelope.hash
      invariant forall j, k | 0 <= j < k < i :: records[j].envelope.hash != records[k].envelope.hash
      invariant forall j | 0 <= j < i :: records[j].seqNo <= checkpoint && verifies(records[j].envelope)
    {
      var record := records[i];
      if record.envelope.hash in ids || record.seqNo > checkpoint || !verifies(record.envelope) {
        assert record in records;
        return false;
      }
      ids := ids + {record.envelope.hash};
    }
    ok := true;
  }

  method CheckOrder(records: seq<Record>, filters: Filters, after: nat) returns (ok: bool)
    ensures ok <==> Ascending(records) && forall r | r in records ::
              after < r.seqNo && Matches(r.envelope.event, filters)
  {
    var last := after;
    for i := 0 to |records|
      invariant last == if i == 0 then after else records[i - 1].seqNo
      invariant forall j, k | 0 <= j < k < i :: records[j].seqNo < records[k].seqNo
      invariant forall j | 0 <= j < i :: after < records[j].seqNo <= last && Matches(records[j].envelope.event, filters)
    {
      if records[i].seqNo <= last || !Matches(records[i].envelope.event, filters) {
        assert records[i] in records;
        return false;
      }
      last := records[i].seqNo;
    }
    ok := true;
  }

  // ---- The tracker --------------------------------------------------------

  datatype Tracker = Tracker(
    origin: string, binding: Option<Binding>, scope: Option<Scope>, seen: set<Id>, last: nat,
    nextCursor: Option<string>)
  {
    predicate Complete() {
      binding.Some? && nextCursor.None?
    }

    /** Where to poll from next time; unknown while pages are outstanding. */
    function Checkpoint(): Option<nat> {
      if Complete() && scope.Some? then Some(scope.value.checkpoint) else None
    }
  }

  function Fresh(origin: string): Tracker {
    Tracker(origin, None, None, {}, 0, None)
  }

  function Ids(records: seq<Record>): set<Id> {
    set r | r in records :: r.envelope.hash
  }

  /** Whether this exchange opens a traversal, or continues the one under way. */
  predicate Continues(t: Tracker, request: QueryRequest, response: Response) {
    if t.binding.None? then request.cursor.None?
    else
      && t.nextCursor.Some? && request.cursor == t.nextCursor
      && t.binding == Some(BindingOf(request)) && t.scope == Some(ScopeOf(response))
  }

  ghost function Accepted(
    verifies: Envelope -> bool, t: Tracker, request: QueryRequest, response: Response): Result<Tracker, Error>
  {
    var last := if t.binding.None? then BindingOf(request).after else t.last;
    var records := response.result;
    if !RequestValid(request) then Err(BadRequest)
    else if !PageValid(verifies, request, response, t.origin) || !Continues(t, request, response) then Err(BadResponse)
    else if (records != [] && records[0].seqNo <= last) || Ids(records) * t.seen != {} then Err(BadResponse)
    else
      Ok(Tracker(t.origin, Some(BindingOf(request)), Some(ScopeOf(response)), t.seen + Ids(records),
                 if records == [] then last else records[|records| - 1].seqNo, response.nextCursor))
  }

  class KnowledgePageTracker {
    const verifies: Envelope -> bool
    const origin: string
    var binding: Option<Binding>
    var scope: Option<Scope>
    var seen: set<Id>
    var last: nat
    var nextCursor: Option<string>

    function Contents(): Tracker
      reads this
    {
      Tracker(origin, binding, scope, seen, last, nextCursor)
    }

    constructor (verifies: Envelope -> bool, origin: string)
      ensures this.verifies == verifies && Contents() == Fresh(origin)
    {
      this.verifies, this.origin := verifies, origin;
      binding, scope, seen, last, nextCursor := None, None, {}, 0, None;
    }

    /** A refused page leaves the tracker as it was. */
    method Accept(request: QueryRequest, response: Response) returns (r: Result<(), Error>)
      modifies this
      ensures var accepted := Accepted(verifies, old(Contents()), request, response);
        if accepted.Ok? then r == Ok(()) && Contents() == accepted.value
        else r == Err(accepted.error) && Contents() == old(Contents())
    {
      r := ValidateQueryResponse(verifies, request, response, origin);
      if r.Err? {
        return;
      }
      var bound := BindingOf(request);
      var current := ScopeOf(response);
      var reached := last;
      if binding.None? {
        if request.cursor.Some? {
          return Err(BadResponse);
        }
        reached := bound.after;
      } else if nextCursor.None? || request.cursor != nextCursor || binding != Some(bound) || scope != Some(current) {
        return Err(BadResponse);
      }
      var records := response.result;
      var ids := Ids(records);
      if (records != [] && records[0].seqNo <= reached) || ids * seen != {} {
        return Err(BadResponse);
      }
      seen := seen + ids;
      if records != [] {
        reached := records[|records| - 1].seqNo;
      }
      last, binding, scope, nextCursor := reached, Some(bound), Some(current), response.nextCursor;
    }
  }

  ghost function Consume(verifies: Envelope -> bool, t: Tracker, exchanges: seq<Exchange>): Result<Tracker, Error>
    decreases |exchanges|
  {
    if exchanges == [] then Ok(t)
    else
      var next := Accepted(verifies, t, exchanges[0].request, exchanges[0].response);
      if next.Err? then next else Consume(verifies, next.value, exchanges[1..])
  }

  // ---- Any service --------------------------------------------------------

  ghost function AllRecords(exchanges: seq<Exchange>): seq<Record> {
    if exchanges == [] then []
    else AllRecords(exchanges[..|exchanges| - 1]) + exchanges[|exchanges| - 1].response.result
  }

  ghost predicate Follows(e: Exchange, next: Exchange) {
    next.request.cursor.Some? && next.request.cursor == e.response.nextCursor
  }

  ghost predicate Chained(exchanges: seq<Exchange>) {
    && (exchanges != [] ==> exchanges[0].request.cursor.None?)
    && forall i, j | 0 <= i < j < |exchanges| && j == i + 1 :: Follows(exchanges[i], exchanges[j])
  }

  ghost predicate Within(records: seq<Record>, b: Binding, scope: Scope) {
    forall r | r in records :: b.after < r.seqNo <= scope.checkpoint && Matches(r.envelope.event, b.filters)
  }

  /** The pages together: one request, one scope, chained cursors, and one ordered list without repetition. */
  ghost predicate OneEnumeration(exchanges: seq<Exchange>, b: Binding, scope: Scope) {
    && (forall e | e in exchanges :: BindingOf(e.request) == b && ScopeOf(e.response) == scope)
    && Chained(exchanges)
    && Ascending(AllRecords(exchanges)) && DistinctIds(AllRecords(exchanges))
    && Within(AllRecords(exchanges), b, scope)
  }

  ghost predicate Describes(t: Tracker, exchanges: seq<Exchange>) {
    if t.binding.None? then exchanges == [] && t == Fresh(t.origin)
    else
      && exchanges != [] && t.scope.Some? && t.scope.value.service == t.origin
      && OneEnumeration(exchanges, t.binding.value, t.scope.value)
      && t.nextCursor == exchanges[|exchanges| - 1].response.nextCursor
      && t.seen == Ids(AllRecords(exchanges))
      && t.binding.value.after <= t.last
      && forall r | r in AllRecords(exchanges) :: r.seqNo <= t.last
  }

  lemma AppendOrdered(all: seq<Record>, page: seq<Record>, last: nat)
    requires Ascending(all) && Ascending(page) && DistinctIds(all) && DistinctIds(page)
    requires forall r | r in all :: r.seqNo <= last
    requires page != [] ==> last < page[0].seqNo
    requires Ids(page) * Ids(all) == {}
    ensures Ascending(all + page) && DistinctIds(all + page)
    ensures Ids(all + page) == Ids(all) + Ids(page)
    ensures page != [] ==> forall r | r in all + page :: r.seqNo <= page[|page| - 1].seqNo
  {
    forall i, j | 0 <= i < j < |all + page|
      ensures (all + page)[i].seqNo < (all + page)[j].seqNo
      ensures (all + page)[i].envelope.hash != (all + page)[j].envelope.hash
    {
      if i < |all| <= j {
        assert all[i] in all && page[j - |all|] in page;
        assert all[i].envelope.hash in Ids(all) && page[j - |all|].envelope.hash in Ids(page);
        assert page[j - |all|].envelope.hash !in Ids(page) * Ids(all);
      }
    }
  }

  lemma AllRecordsSnoc(done: seq<Exchange>, e: Exchange)
    ensures AllRecords(done + [e]) == AllRecords(done) + e.response.result
  {
    assert (done + [e])[..|done|] == done;
  }

  lemma ChainGrows(done: seq<Exchange>, e: Exchange)
    requires if done == [] then e.request.cursor.None? else Chained(done) && Follows(done[|done| - 1], e)
    ensures Chained(done + [e])
  {
    hide Follows;
    var now := done + [e];
    forall i, j | 0 <= i < j < |now| && j == i + 1
      ensures Follows(now[i], now[j])
    {
      assert now[i] == done[i];
      assert j < |done| ==> now[j] == done[j];
    }
  }

  lemma WithinGrows(all: seq<Record>, page: seq<Record>, b: Binding, scope: Scope)
    requires Within(all, b, scope) && Within(page, b, scope)
    ensures Within(all + page, b, scope)
  {
    hide Matches;
  }

  /** What accepting a page says about it and about the tracker before and after it. */
  lemma AcceptedPage(verifies: Envelope -> bool, t: Tracker, request: QueryRequest, response: Response)
    requires Accepted(verifies, t, request, response).Ok?
    ensures var page, b := response.result, BindingOf(request);
      var last := if t.binding.None? then b.after else t.last;
      && Continues(t, request, response) && response.service == t.origin
      && Ascending(page) && DistinctIds(page)
      && Within(page, b, ScopeOf(response))
      && (page != [] ==> last < page[0].seqNo) && Ids(page) * t.seen == {}
      && Accepted(verifies, t, request, response).value
         == Tracker(t.origin, Some(b), Some(ScopeOf(response)), t.seen + Ids(page),
                    if page == [] then last else page[|page| - 1].seqNo, response.nextCursor)
  {
    hide Matches, RequestValid, ResponseShape, Continues;
  }

  /** What the tracker knows of the pages before the one that continues them. */
  lemma DescribedSoFar(t: Tracker, done: seq<Exchange>, e: Exchange)
    requires Describes(t, done) && Continues(t, e.request, e.response)
    ensures var all, b := AllRecords(done), BindingOf(e.request);
      var last := if t.binding.None? then b.after else t.last;
      && Ascending(all) && DistinctIds(all) && Ids(all) == t.seen && b.after <= last
      && (forall r | r in all :: r.seqNo <= last)
      && Within(all, b, ScopeOf(e.response))
      && (forall e' | e' in done :: BindingOf(e'.request) == b && ScopeOf(e'.response) == ScopeOf(e.response))
      && (if done == [] then e.request.cursor.None? else Chained(done) && Follows(done[|done| - 1], e))
  {
    hide Matches, Chained;
  }

  lemma AcceptDescribes(verifies: Envelope -> bool, t: Tracker, done: seq<Exchange>, e: Exchange)
    requires Describes(t, done) && Accepted(verifies, t, e.request, e.response).Ok?
    ensures Describes(Accepted(verifies, t, e.request, e.response).value, done + [e])
  {
    AcceptedPage(verifies, t, e.request, e.response);
    DescribedSoFar(t, done, e);
    hide Accepted, Continues, Ascending, DistinctIds, AllRecords, Ids, Chained, Within, Follows, ScopeOf, BindingOf,
      Describes, OneEnumeration;
    var page, b, scope := e.response.result, BindingOf(e.request), ScopeOf(e.response);
    var last := if t.binding.None? then b.after else t.last;
    AppendOrdered(AllRecords(done), page, last);
    AllRecordsSnoc(done, e);
    ChainGrows(done, e);
    WithinGrows(AllRecords(done), page, b, scope);
    ScopeService(e.response);
    NewLast(AllRecords(done), page, last);
    OneMorePage(done, e, b, scope);
    DescribesWhen(Accepted(verifies, t, e.request, e.response).value, done + [e]);
  }

  lemma NewLast(all: seq<Record>, page: seq<Record>, last: nat)
    requires Ascending(page) && (page != [] ==> last < page[0].seqNo) && forall r | r in all :: r.seqNo <= last
    ensures var reached := if page == [] then last else page[|page| - 1].seqNo;
      last <= reached && forall r | r in all + page :: r.seqNo <= reached
  {
  }

  lemma OneMorePage(done: seq<Exchange>, e: Exchange, b: Binding, scope: Scope)
    requires forall e' | e' in done :: BindingOf(e'.request) == b && ScopeOf(e'.response) == scope
    requires BindingOf(e.request) == b && ScopeOf(e.response) == scope && Chained(done + [e])
    requires var all := AllRecords(done + [e]); Ascending(all) && DistinctIds(all) && Within(all, b, scope)
    ensures OneEnumeration(done + [e], b, scope)
  {
    hide Chained, AllRecords, Ascending, DistinctIds, Within, BindingOf, ScopeOf;
  }

  lemma DescribesWhen(t: Tracker, now: seq<Exchange>)
    requires t.binding.Some? && t.scope.Some? && t.scope.value.service == t.origin && now != []
    requires OneEnumeration(now, t.binding.value, t.scope.value) && t.nextCursor == now[|now| - 1].response.nextCursor
    requires var all := AllRecords(now);
      t.seen == Ids(all) && t.binding.value.after <= t.last && forall r | r in all :: r.seqNo <= t.last
    ensures Describes(t, now)
  {
    hide OneEnumeration, AllRecords, Ids;
  }

  lemma ScopeService(response: Response)
    ensures ScopeOf(response).service == response.service && ScopeOf(response).checkpoint == response.checkpoint
  {
  }

  lemma {:induction false} ConsumeDescribes(
    verifies: Envelope -> bool, t: Tracker, done: seq<Exchange>, rest: seq<Exchange>)
    requires Describes(t, done) && Consume(verifies, t, rest).Ok?
    ensures Describes(Consume(verifies, t, rest).value, done + rest)
    ensures Consume(verifies, t, rest).value.origin == t.origin
    decreases |rest|
  {
    hide Describes, PageValid, Continues;
    if rest == [] {
      assert done + rest == done;
    } else {
      var t' := Accepted(verifies, t, rest[0].request, rest[0].response);
      assert t'.Ok?;
      AcceptDescribes(verifies, t, done, rest[0]);
      ConsumeDescribes(verifies, t'.value, done + [rest[0]], rest[1..]);
      assert done + [rest[0]] + rest[1..] == done + rest;
    }
  }

  /** Whoever served the pages, a tracker that accepted them all and is complete holds one full enumeration. */
  lemma CompleteTrackerIsOneEnumeration(verifies: Envelope -> bool, origin: string, exchanges: seq<Exchange>)
    requires Consume(verifies, Fresh(origin), exchanges).Ok?
    requires Consume(verifies, Fresh(origin), exchanges).value.Complete()
    ensures exchanges != []
    ensures var first, final := exchanges[0], exchanges[|exchanges| - 1];
      && ScopeOf(first.response).service == origin
      && OneEnumeration(exchanges, BindingOf(first.request), ScopeOf(first.response))
      && final.response.nextCursor.None?
      && Consume(verifies, Fresh(origin), exchanges).value.Checkpoint() == Some(first.response.checkpoint)
  {
    hide Accepted, Matches;
    ConsumeDescribes(verifies, Fresh(origin), [], exchanges);
    assert [] + exchanges == exchanges;
    assert exchanges != [] ==> exchanges[0] in exchanges;
  }

  // ---- The honest service -------------------------------------------------

  ghost function Exchanges(visits: seq<Visit>): seq<Exchange> {
    seq(|visits|, i requires 0 <= i < |visits| => Exchange(visits[i].request, visits[i].response))
  }

  /** The tracker stands where the service will resume, and has seen nothing the service can still return. */
  ghost predicate InStep(svc: Service, t: Tracker, s: State, request: QueryRequest, p: Position) {
    && t.origin == svc.origin
    && (t.binding.None? ==> request.cursor.None? && t.seen == {})
    && (t.binding.Some? ==>
          && t.nextCursor.Some? && request.cursor == t.nextCursor && t.binding == Some(BindingOf(request))
          && t.scope == Some(Scope(svc.origin, p.checkpoint, p.asOf)) && t.last == p.last)
    && forall id | id in t.seen && id in s.records ::
        s.records[id].seqNo <= p.last || p.checkpoint < s.records[id].seqNo
  }

  lemma HonestPageIsValid(svc: Service, s: State, request: QueryRequest, now: int)
    requires Inv(svc, s) && DigestIsText(svc) && Queried(svc, s, request, now).Ok?
    ensures PageValid(svc.verifies, request, Queried(svc, s, request, now).value, svc.origin)
  {
    hide Matches, FiltersValid, Queried, StartPosition, Page, FormatCursor, Scan;
    AnswerIsAPage(svc, s, request, now);
    var p := StartPosition(svc, s, request, now).value;
    var page := Queried(svc, s, request, now).value;
    PageIsExact(svc, s, request, p);
    assert forall i | 0 <= i < |page.result| :: page.result[i] in page.result;
    if page.nextCursor.Some? {
      CursorAdvances(svc, s, request, now, s, now);
    }
  }

  lemma HonestPageIsAccepted(svc: Service, t: Tracker, s: State, request: QueryRequest, now: int)
    requires Inv(svc, s) && DigestIsText(svc) && Queried(svc, s, request, now).Ok?
    requires InStep(svc, t, s, request, StartPosition(svc, s, request, now).value)
    ensures Accepted(svc.verifies, t, request, Queried(svc, s, request, now).value).Ok?
  {
    hide Matches, FiltersValid, Queried, StartPosition, Page, FormatCursor, Scan, Inv, PageValid;
    AnswerIsAPage(svc, s, request, now);
    var p := StartPosition(svc, s, request, now).value;
    var page := Queried(svc, s, request, now).value;
    PageIsExact(svc, s, request, p);
    HonestPageIsValid(svc, s, request, now);
    assert Ids(page.result) * t.seen == {} by {
      forall id | id in Ids(page.result)
        ensures id !in t.seen
      {
        var r :| r in page.result && r.envelope.hash == id;
      }
    }
    assert page.result != [] ==> page.result[0] in page.result;
  }

  lemma HonestPageKeepsStep(svc: Service, t: Tracker, s: State, request: QueryRequest, now: int, u: State, later: int)
    requires Inv(svc, s) && DigestIsText(svc) && Queried(svc, s, request, now).Ok? && Inv(svc, u) && Evolves(s, u)
    requires InStep(svc, t, s, request, StartPosition(svc, s, request, now).value)
    requires Queried(svc, s, request, now).value.nextCursor.Some?
    requires Accepted(svc.verifies, t, request, Queried(svc, s, request, now).value).Ok?
    ensures var page := Queried(svc, s, request, now).value;
      var next := request.(cursor := page.nextCursor);
      && Queried(svc, u, next, later).Ok?
      && InStep(svc, Accepted(svc.verifies, t, request, page).value, u, next, StartPosition(svc, u, next, later).value)
  {
    hide Matches, FiltersValid, StartPosition, Page, FormatCursor, Scan, Inv, PageValid;
    AnswerIsAPage(svc, s, request, now);
    var p := StartPosition(svc, s, request, now).value;
    var page := Queried(svc, s, request, now).value;
    PageIsExact(svc, s, request, p);
    CursorAdvances(svc, s, request, now, u, later);
    var edge := page.result[|page.result| - 1].seqNo;
    var t' := Accepted(svc.verifies, t, request, page).value;
    forall id | id in t'.seen && id in u.records
      ensures u.records[id].seqNo <= edge || p.checkpoint < u.records[id].seqNo
    {
      if id in Ids(page.result) {
        var r :| r in page.result && r.envelope.hash == id;
      }
    }
  }

  lemma {:induction false} HonestTraversalFrom(
    svc: Service, t: Tracker, s: State, request: QueryRequest, env: Environment, k: nat)
    requires Inv(svc, s) && DigestIsText(svc) && Queried(svc, s, request, env.clock(k)).Ok?
    requires InStep(svc, t, s, request, StartPosition(svc, s, request, env.clock(k)).value)
    ensures var exchanges := Exchanges(Traverse(svc, s, request, env, k));
      var end := Consume(svc.verifies, t, exchanges);
      end.Ok? && end.value.Complete()
      && end.value.Checkpoint() == Some(StartPosition(svc, s, request, env.clock(k)).value.checkpoint)
    decreases Remaining(svc, s, request, env.clock(k))
  {
    hide Matches, FiltersValid, Inv, Queried, StartPosition, Page, RequestValid, Evolves, Accepted, InStep,
        Exchanges, Consume;
    var now := env.clock(k);
    AnswerIsAPage(svc, s, request, now);
    var page := Queried(svc, s, request, now).value;
    PageIsExact(svc, s, request, StartPosition(svc, s, request, now).value);
    HonestPageIsAccepted(svc, t, s, request, now);
    AcceptedPage(svc.verifies, t, request, page);
    var t' := Accepted(svc.verifies, t, request, page).value;
    var visit := Visit(s, request, page);
    if page.nextCursor.None? {
      ConsumeOneMore(svc.verifies, t, visit, []);
      assert [visit] + [] == [visit];
    } else {
      var u := Run(svc, s, env.ops(k));
      RunKeepsInv(svc, s, env.ops(k));
      CursorAdvances(svc, s, request, now, u, env.clock(k + 1));
      HonestPageKeepsStep(svc, t, s, request, now, u, env.clock(k + 1));
      var next := request.(cursor := page.nextCursor);
      HonestTraversalFrom(svc, t', u, next, env, k + 1);
      ConsumeOneMore(svc.verifies, t, visit, Traverse(svc, u, next, env, k + 1));
    }
  }

  lemma ConsumeOneMore(verifies: Envelope -> bool, t: Tracker, visit: Visit, rest: seq<Visit>)
    requires Accepted(verifies, t, visit.request, visit.response).Ok?
    ensures Consume(verifies, t, Exchanges([visit] + rest))
         == Consume(verifies, Accepted(verifies, t, visit.request, visit.response).value, Exchanges(rest))
    ensures rest == [] ==>
              Consume(verifies, t, Exchanges([visit] + rest)) == Accepted(verifies, t, visit.request, visit.response)
  {
    hide Accepted;
    assert Exchanges([visit] + rest)[1..] == Exchanges(rest);
  }

  /** The tracker accepts every page of an honest traversal, under any interference, and ends at its checkpoint. */
  lemma HonestTraversalIsAccepted(svc: Service, s: State, request: QueryRequest, env: Environment)
    requires Inv(svc, s) && DigestIsText(svc)
    requires request.cursor.None? && Queried(svc, s, request, env.clock(0)).Ok?
    ensures var end := Consume(svc.verifies, Fresh(svc.origin), Exchanges(Traverse(svc, s, request, env, 0)));
      end.Ok? && end.value.Complete() && end.value.Checkpoint() == Some(s.highWater)
  {
    HonestTraversalFrom(svc, Fresh(svc.origin), s, request, env, 0);
  }
}
